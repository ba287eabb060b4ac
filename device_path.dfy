/**
 * The device resolver of fbview.c: the single command-line argument
 * becomes a framebuffer device path in a 64-character buffer that starts
 * out holding "/dev/fb", and the id printed in the banner is read back
 * from that path.
 */
module DevicePath {
  import opened Wrappers
  import opened CStrings

  /** `char fb_path[64]`: 64 bytes, one `char` per byte, so the limits below count bytes */
  const PathCapacity: nat := 64
  /** DEFAULT_FB_PATH, the buffer's initial contents */
  const DefaultPrefix: seq<char> := "/dev/fb"
  /** DEFAULT_FB_ID, appended when no argument is given */
  const DefaultId: seq<char> := "0"
  /** An argument starting with this is a full device path */
  const DevDir: seq<char> := "/dev/"

  /**
   * `strncmp(arg, "/dev/", 5) == 0`: for a C string, exactly when it starts
   * with "/dev/", so an argument of fewer than five characters never does.
   */
  predicate IsDevPath(arg: seq<char>)
    ensures NoNul(arg) ==> (IsDevPath(arg) <==> |arg| >= |DevDir| && arg[..|DevDir|] == DevDir)
  {
    if NoNul(arg) then
      StrNEqualIsPrefix(arg, DevDir);
      StrNEqual(arg, DevDir, |DevDir|)
    else
      StrNEqual(arg, DevDir, |DevDir|)
  }

  /**
   * What main demands of its argument: a C string, and, when it is
   * appended to "/dev/fb" by the unchecked strcat, one short enough that
   * the path and its NUL fit the buffer (at most 56 characters).
   */
  predicate ArgFits(arg: Option<seq<char>>)
    ensures ArgFits(arg) && arg.Some? ==> NoNul(arg.value)
    ensures arg.Some? && NoNul(arg.value) && |arg.value| <= PathCapacity - |DefaultPrefix| - 1 ==> ArgFits(arg)
  {
    match arg
    case None => true
    case Some(a) => NoNul(a) && (IsDevPath(a) || |DefaultPrefix| + |a| < PathCapacity)
  }

  function Min(a: nat, b: nat): nat {
    if a < b then a else b
  }

  /** The device path main opens, for an argument that fits. */
  function ResolvedPath(arg: Option<seq<char>>): (r: seq<char>)
    requires ArgFits(arg)
    ensures NoNul(r) && |r| < PathCapacity
  {
    match arg
    case None => DefaultPrefix + DefaultId
    case Some(a) =>
      if IsDevPath(a) then a[..Min(|a|, PathCapacity - 1)] else DefaultPrefix + a
  }

  /**
   * Builds the path in place as main does: a buffer initialised to
   * "/dev/fb" and NULs, then strncpy of at most 63 characters plus an
   * explicit terminator for a "/dev/..." argument, strcat of the argument
   * otherwise, strcat of "0" when there is none. The last cell is NUL on
   * every branch.
   */
  method ResolvePath(arg: Option<seq<char>>) returns (buf: array<char>)
    requires ArgFits(arg)
    ensures buf.Length == PathCapacity && buf[PathCapacity - 1] == NUL
    ensures CStr(buf[..]) == ResolvedPath(arg)
  {
    buf := new char[PathCapacity](i => if 0 <= i < |DefaultPrefix| then DefaultPrefix[i] else NUL);
    assert buf[..] == DefaultPrefix + [NUL] + buf[|DefaultPrefix| + 1..];
    CStrOfTerminated(DefaultPrefix, buf[|DefaultPrefix| + 1..]);
    match arg {
      case None =>
        StrCat(buf, DefaultId);
      case Some(a) =>
        if IsDevPath(a) {
          StrNCpy(buf, a, PathCapacity - 1);
          buf[PathCapacity - 1] := NUL;
          assert buf[..] == Padded(a, PathCapacity - 1) + [NUL];
          CStrOfPadded(a, PathCapacity - 1);
        } else {
          StrCat(buf, a);
        }
    }
  }

  /**
   * The id shown in the banner (`strrchr(fb_path, 'b')`, plus one): what
   * follows the last 'b' of the path, or "?" when the path has no 'b'.
   */
  function FbId(path: seq<char>): (r: seq<char>)
    ensures 'b' in path ==> 'b' !in r && exists i :: 0 <= i < |path| && path[i] == 'b' && r == path[i + 1..]
    ensures 'b' !in path ==> r == "?"
  {
    match LastIndex(path, 'b')
    case Some(i) => path[i + 1..]
    case None => "?"
  }

  /** A full path is opened verbatim when it fits in 63 characters, and cut to its first 63 otherwise. */
  lemma DevPathVerbatim(a: seq<char>)
    requires NoNul(a) && IsDevPath(a)
    ensures ResolvedPath(Some(a)) <= a
    ensures |a| < PathCapacity ==> ResolvedPath(Some(a)) == a
    ensures |a| >= PathCapacity ==> |ResolvedPath(Some(a))| == PathCapacity - 1
  {
  }

  /** Any other argument is a bare id: the path is "/dev/fb" followed by it. */
  lemma BareIdAppended(a: seq<char>)
    requires ArgFits(Some(a)) && !(|a| >= |DevDir| && a[..|DevDir|] == DevDir)
    ensures ResolvedPath(Some(a)) == DefaultPrefix + a
  {
  }

  /** The banner gives back a bare id that has no 'b' in it. */
  lemma BareIdRoundTrip(id: seq<char>)
    requires ArgFits(Some(id)) && !IsDevPath(id) && 'b' !in id
    ensures FbId(ResolvedPath(Some(id))) == id
  {
    var path := DefaultPrefix + id;
    LastIndexAppend(DefaultPrefix, id, 'b');
    assert DefaultPrefix[|DefaultPrefix| - 1] == 'b';
    assert LastIndex(path, 'b') == Some(|DefaultPrefix| - 1);
  }

  /** With no argument the device is /dev/fb0 and the banner says fb0. */
  lemma DefaultDevice()
    ensures ResolvedPath(None) == "/dev/fb0"
    ensures FbId(ResolvedPath(None)) == "0"
  {
  }

  /** A path whose last 'b' is followed by "12" shows id 12. */
  lemma FbIdOfFb12()
    ensures FbId("/dev/fb12") == "12"
  {
  }
}
