/**
 * The calls fbview.c makes to the operating system and to SDL, as entries
 * of a call log, and the discipline they must follow: a resource is
 * acquired at most once, used only while held, and released last-in
 * first-out.
 */
module Platform {
  import opened Wrappers
  import opened Geometry

  /** The six things main acquires, in acquisition order. */
  datatype Resource = Device | Mapping | Video | Window | Renderer | Texture

  const AcquireOrder: seq<Resource> := [Device, Mapping, Video, Window, Renderer, Texture]

  /** One successful call that main makes. Failed attempts acquire nothing and are not logged. */
  datatype Call =
    | Open(path: seq<char>)                              // open(fb_path, O_RDWR)
    | Mmap(length: nat)                                  // mmap(NULL, fb_size, ..., fb, 0)
    | VideoInit                                          // SDL_Init(SDL_INIT_VIDEO)
    | CreateWindow(w: nat, h: nat)                       // SDL_CreateWindow
    | CreateRenderer                                     // SDL_CreateRenderer
    | CreateTexture(format: PixelFormat, w: nat, h: nat) // SDL_CreateTexture
    | SetWindowSize(w: nat, h: nat)                      // SDL_SetWindowSize
    | PresentFrame(pitch: nat)                           // SDL_UpdateTexture ... SDL_RenderPresent
    | DestroyTexture
    | DestroyRenderer
    | DestroyWindow
    | VideoQuit                                          // SDL_Quit
    | Munmap(length: nat)
    | Close

  /** What a call does to the set of held resources. */
  datatype Effect = Acquire(r: Resource) | Release(r: Resource) | Use

  function EffectOf(c: Call): Effect {
    match c
    case Open(_) => Acquire(Device)
    case Mmap(_) => Acquire(Mapping)
    case VideoInit => Acquire(Video)
    case CreateWindow(_, _) => Acquire(Window)
    case CreateRenderer => Acquire(Renderer)
    case CreateTexture(_, _, _) => Acquire(Texture)
    case SetWindowSize(_, _) => Use
    case PresentFrame(_) => Use
    case DestroyTexture => Release(Texture)
    case DestroyRenderer => Release(Renderer)
    case DestroyWindow => Release(Window)
    case VideoQuit => Release(Video)
    case Munmap(_) => Release(Mapping)
    case Close => Release(Device)
  }

  /** The handles a call works through, which must be held when it is made. */
  function Needs(c: Call): set<Resource> {
    match c
    case Mmap(_) => {Device}
    case CreateWindow(_, _) => {Video}
    case CreateRenderer => {Window}
    case CreateTexture(_, _, _) => {Renderer}
    case SetWindowSize(_, _) => {Window}
    case PresentFrame(_) => {Mapping, Renderer, Texture}
    case _ => {}
  }

  /**
   * Runs a call log against a stack of held resources: an acquisition
   * pushes a resource not already held, a release pops the top of the
   * stack and nothing else, and every call needs its handles held.
   * None means the log breaks the discipline.
   */
  function Replay(held: seq<Resource>, calls: seq<Call>): Option<seq<Resource>>
    decreases |calls|
  {
    if calls == [] then Some(held)
    else
      var c := calls[0];
      if !(forall r :: r in Needs(c) ==> r in held) then None
      else match EffectOf(c)
        case Acquire(r) => if r in held then None else Replay(held + [r], calls[1..])
        case Release(r) =>
          if held != [] && held[|held| - 1] == r then Replay(held[..|held| - 1], calls[1..]) else None
        case Use => Replay(held, calls[1..])
  }

  /** Replaying two logs one after the other is replaying their concatenation. */
  lemma {:induction false} ReplayAppend(held: seq<Resource>, a: seq<Call>, b: seq<Call>)
    ensures Replay(held, a + b) == match Replay(held, a) case None => None case Some(h) => Replay(h, b)
    decreases |a|
  {
    if a != [] {
      assert (a + b)[0] == a[0] && (a + b)[1..] == a[1..] + b;
      match EffectOf(a[0])
      case Acquire(r) => ReplayAppend(held + [r], a[1..], b);
      case Release(r) => if held != [] { ReplayAppend(held[..|held| - 1], a[1..], b); }
      case Use => ReplayAppend(held, a[1..], b);
    } else {
      assert a + b == b;
    }
  }

  /** Calls that only use handles already held leave the held stack as it is. */
  lemma {:induction false} ReplayUses(held: seq<Resource>, calls: seq<Call>)
    requires forall i :: 0 <= i < |calls| ==> EffectOf(calls[i]) == Use && Needs(calls[i]) <= set r | r in held
    ensures Replay(held, calls) == Some(held)
    decreases |calls|
  {
    if calls != [] {
      ReplayUses(held, calls[1..]);
    }
  }

  /** One acquiring call on its own: it pushes its resource when that is not yet held and its handles are. */
  lemma ReplayAcquire(held: seq<Resource>, c: Call, r: Resource)
    requires EffectOf(c) == Acquire(r) && r !in held
    requires forall x :: x in Needs(c) ==> x in held
    ensures Replay(held, [c]) == Some(held + [r])
  {
  }
}
