/**
 * NUL-terminated character buffers, as the C library functions used by
 * fbview.c (strcat, strncpy, strncmp, strrchr) treat them, and as printf
 * and open read them. A buffer is an `array<char>`, one `char` per C
 * byte; the C string it holds is everything before its first NUL.
 */
module CStrings {
  import opened Wrappers

  const NUL: char := '\0'

  /** The characters of a C string: a NUL would end it early. */
  predicate NoNul(s: seq<char>) {
    NUL !in s
  }

  /** The C string a buffer holds: its longest NUL-free prefix. */
  function CStr(buf: seq<char>): (r: seq<char>)
    ensures r <= buf && NoNul(r)
    ensures |r| < |buf| ==> buf[|r|] == NUL
  {
    if buf == [] || buf[0] == NUL then [] else [buf[0]] + CStr(buf[1..])
  }

  /** A NUL placed right after a NUL-free text ends the C string there, whatever follows. */
  lemma {:induction false} CStrOfTerminated(s: seq<char>, rest: seq<char>)
    requires NoNul(s)
    ensures CStr(s + [NUL] + rest) == s
  {
    if s != [] {
      assert (s + [NUL] + rest)[1..] == s[1..] + [NUL] + rest;
      CStrOfTerminated(s[1..], rest);
    }
  }

  /** The character strncmp and friends see at index `k` of a C string: NUL past its end. */
  function CharAt(s: seq<char>, k: nat): char {
    if k < |s| then s[k] else NUL
  }

  /**
   * `strncmp(a, b, n) == 0` for NUL-free `a` and `b`: the first `n`
   * characters agree, where a string that ends early reads as NUL from its
   * end on. (strncmp stops at a NUL inside a string; this does not, so it
   * is only used on C strings.)
   */
  predicate StrNEqual(a: seq<char>, b: seq<char>, n: nat)
    ensures n <= |a| && n <= |b| ==> (StrNEqual(a, b, n) <==> a[..n] == b[..n])
  {
    // within both strings, CharAt reads the slices
    assert forall k: nat :: k < n <= |a| && n <= |b| ==> a[..n][k] == CharAt(a, k) && b[..n][k] == CharAt(b, k);
    forall k: nat :: k < n ==> CharAt(a, k) == CharAt(b, k)
  }

  /** Comparing against all of a C string `p` with strncmp is a prefix test. */
  lemma StrNEqualIsPrefix(a: seq<char>, p: seq<char>)
    requires NoNul(a) && NoNul(p)
    ensures StrNEqual(a, p, |p|) <==> p <= a
  {
    if |a| < |p| {
      // `a` has ended where `p` still has a character
      assert CharAt(a, |a|) != CharAt(p, |a|);
    } else if p <= a {
      forall k: nat | k < |p| ensures CharAt(a, k) == CharAt(p, k) {
        assert a[k] == p[k];
      }
    } else {
      var k :| 0 <= k < |p| && a[k] != p[k];
      assert CharAt(a, k) != CharAt(p, k);
    }
  }

  /** Where the C string of `buf` ends, so that the path printf and open read can be taken from the buffer. */
  method StrLen(buf: array<char>) returns (n: nat)
    requires NUL in buf[..]
    ensures n < buf.Length && buf[n] == NUL
    ensures buf[..n] == CStr(buf[..])
  {
    n := 0;
    while buf[n] != NUL
      invariant n < buf.Length
      invariant NoNul(buf[..n])
      invariant NUL in buf[n..]
      decreases buf.Length - n
    {
      assert buf[n..] == [buf[n]] + buf[n + 1..];
      assert buf[..n + 1] == buf[..n] + [buf[n]];
      n := n + 1;
    }
    assert buf[..] == buf[..n] + [NUL] + buf[n + 1..];
    CStrOfTerminated(buf[..n], buf[n + 1..]);
  }

  /**
   * `strcat(buf, src)`: writes `src` and a NUL over the terminator of the
   * string in `buf`. C checks no bound; the requires clause is the caller's
   * obligation that the result fits.
   */
  method StrCat(buf: array<char>, src: seq<char>)
    requires NUL in buf[..] && NoNul(src)
    requires |CStr(buf[..])| + |src| < buf.Length
    modifies buf
    ensures var n := |old(CStr(buf[..]))|;
      buf[..] == old(buf[..n]) + src + [NUL] + old(buf[n + |src| + 1..])
    ensures CStr(buf[..]) == old(CStr(buf[..])) + src
  {
    var n := StrLen(buf);
    var i := 0;
    while i < |src|
      invariant 0 <= i <= |src|
      invariant forall k :: 0 <= k < buf.Length ==>
        buf[k] == if n <= k < n + i then src[k - n] else old(buf[k])
    {
      buf[n + i] := src[i];
      i := i + 1;
    }
    buf[n + |src|] := NUL;
    assert buf[..] == old(buf[..n]) + src + [NUL] + old(buf[n + |src| + 1..]);
    assert old(CStr(buf[..])) == old(buf[..n]);
    CStrOfTerminated(old(buf[..n]) + src, old(buf[n + |src| + 1..]));
  }

  /** What `strncpy(dst, src, count)` writes: `src` cut or NUL-padded to exactly `count` characters. */
  function Padded(src: seq<char>, count: nat): (r: seq<char>)
    ensures |r| == count
  {
    if |src| >= count then src[..count] else src + seq(count - |src|, _ => NUL)
  }

  /** Terminating a strncpy result right after its `count` characters leaves the first `count` characters of `src`. */
  lemma CStrOfPadded(src: seq<char>, count: nat)
    requires NoNul(src)
    ensures CStr(Padded(src, count) + [NUL]) == src[..if |src| < count then |src| else count]
  {
    if |src| >= count {
      CStrOfTerminated(src[..count], []);
    } else {
      var pad := seq(count - |src|, _ => NUL);
      assert pad + [NUL] == [NUL] + pad;
      assert Padded(src, count) + [NUL] == src + [NUL] + pad;
      CStrOfTerminated(src, pad);
    }
  }

  /** `strncpy(buf, src, count)`: the first `count` cells become `Padded(src, count)`, the rest is untouched. */
  method StrNCpy(buf: array<char>, src: seq<char>, count: nat)
    requires NoNul(src) && count <= buf.Length
    modifies buf
    ensures buf[..] == Padded(src, count) + old(buf[count..])
  {
    var i := 0;
    while i < count
      invariant 0 <= i <= count
      invariant forall k :: 0 <= k < i ==> buf[k] == Padded(src, count)[k]
      invariant forall k :: i <= k < buf.Length ==> buf[k] == old(buf[k])
    {
      buf[i] := if i < |src| then src[i] else NUL;
      i := i + 1;
    }
    assert buf[..] == Padded(src, count) + old(buf[count..]);
  }

  /**
   * `strrchr(s, c)` for a character `c` other than NUL: the index of the
   * last occurrence of `c`, or None (a null pointer) when there is none.
   */
  function LastIndex(s: seq<char>, c: char): (r: Option<nat>)
    ensures r.None? <==> c !in s
    ensures r.Some? ==> r.value < |s| && s[r.value] == c && c !in s[r.value + 1..]
  {
    if s == [] then None
    else if s[|s| - 1] == c then Some(|s| - 1)
    else
      var r := LastIndex(s[..|s| - 1], c);
      assert s == s[..|s| - 1] + [s[|s| - 1]];
      r
  }

  /** Characters appended after the last `c` do not move it. */
  lemma {:induction false} LastIndexAppend(s: seq<char>, t: seq<char>, c: char)
    requires c !in t
    ensures LastIndex(s + t, c) == LastIndex(s, c)
  {
    if t != [] {
      var u := t[..|t| - 1];
      assert s + t == (s + u) + [t[|t| - 1]];
      assert (s + t)[..|s + t| - 1] == s + u;
      LastIndexAppend(s, u, c);
    } else {
      assert s + t == s;
    }
  }
}
