/**
 * The render loop of fbview.c: each pass drains the pending input events
 * (a quit request leaves at once; "=" or "+" and "-" step the scale
 * within 1..8 and resize the window) and then presents one frame from the
 * mapping. The outer loop never ends by itself, so it is modelled over a
 * finite list of passes, each given as the events pending at its start.
 */
module RenderLoop {
  import opened Wrappers
  import opened Platform

  /** The key symbols main distinguishes. */
  datatype Key = Equals | Plus | Minus | OtherKey

  /** The event kinds main distinguishes: SDL_QUIT, SDL_KEYDOWN, anything else. */
  datatype Event = Quit | KeyDown(key: Key) | OtherEvent

  const MinScale: int := 1
  const MaxScale: int := 8

  predicate InRange(scale: int) {
    MinScale <= scale <= MaxScale
  }

  predicate IsScaleKey(k: Key) {
    k == Equals || k == Plus || k == Minus
  }

  /** The scale after one key press: one up capped at 8, or one down floored at 1. */
  function NextScale(scale: int, k: Key): (s: int)
    ensures InRange(scale) ==> InRange(s)
  {
    match k
    case Equals => if scale + 1 > MaxScale then MaxScale else scale + 1
    case Plus => if scale + 1 > MaxScale then MaxScale else scale + 1
    case Minus => if scale - 1 < MinScale then MinScale else scale - 1
    case OtherKey => scale
  }

  /** The window-size request for a scale: `width*scale x height*scale`. */
  function ResizeTo(w: nat, h: nat, scale: int): Call
    requires scale >= 0
  {
    SetWindowSize(w * scale, h * scale)
  }

  /** A request for the window at some scale in 1..8. */
  ghost predicate IsResize(c: Call, w: nat, h: nat) {
    exists k :: InRange(k) && c == ResizeTo(w, h, k)
  }

  /** Outcome of one drain: the scale, whether a quit request ended it, the calls it made. */
  datatype DrainResult = DrainResult(scale: int, quit: bool, calls: seq<Call>)

  /** The inner `while (SDL_PollEvent(&e))` loop over the pending events, as a function. */
  function Drain(events: seq<Event>, w: nat, h: nat, scale: int): (r: DrainResult)
    requires InRange(scale)
    ensures InRange(r.scale)
    decreases |events|
  {
    if events == [] then DrainResult(scale, false, [])
    else match events[0]
      case Quit => DrainResult(scale, true, [])
      case KeyDown(k) =>
        if IsScaleKey(k) then
          var s := NextScale(scale, k);
          var rest := Drain(events[1..], w, h, s);
          DrainResult(rest.scale, rest.quit, [ResizeTo(w, h, s)] + rest.calls)
        else Drain(events[1..], w, h, scale)
      case OtherEvent => Drain(events[1..], w, h, scale)
  }

  /** The scale after one event: only the scale keys change it. */
  function ScaleAfter(scale: int, e: Event): int {
    if e.KeyDown? && IsScaleKey(e.key) then NextScale(scale, e.key) else scale
  }

  /** The scale keys met before the first quit request. */
  function ScaleKeysBeforeQuit(events: seq<Event>): nat {
    if events == [] || events[0] == Quit then 0
    else (if events[0].KeyDown? && IsScaleKey(events[0].key) then 1 else 0) + ScaleKeysBeforeQuit(events[1..])
  }

  /** Drains the pending events in place, as main's inner loop does, leaving by `goto exit` on a quit request. */
  method DrainEvents(events: seq<Event>, w: nat, h: nat, scale: int) returns (newScale: int, quit: bool, calls: seq<Call>)
    requires InRange(scale)
    ensures InRange(newScale)
    ensures DrainResult(newScale, quit, calls) == Drain(events, w, h, scale)
  {
    newScale, quit, calls := scale, false, [];
    var i := 0;
    while i < |events|
      invariant 0 <= i <= |events|
      invariant InRange(newScale)
      invariant var d := Drain(events[i..], w, h, newScale);
        Drain(events, w, h, scale) == DrainResult(d.scale, d.quit, calls + d.calls)
    {
      assert events[i..][1..] == events[i + 1..];
      var e := events[i];
      if e == Quit {
        quit := true;
        return;
      }
      if e.KeyDown? {
        if e.key == Equals || e.key == Plus {
          newScale := newScale + 1;
          if newScale > MaxScale { newScale := MaxScale; }
          calls := calls + [SetWindowSize(w * newScale, h * newScale)];
        }
        if e.key == Minus {
          newScale := newScale - 1;
          if newScale < MinScale { newScale := MinScale; }
          calls := calls + [SetWindowSize(w * newScale, h * newScale)];
        }
      }
      i := i + 1;
    }
    assert events[i..] == [];
  }

  /** Every call a drain makes is a window-size request at a scale in 1..8. */
  lemma {:induction false} DrainKeepsScale(events: seq<Event>, w: nat, h: nat, scale: int)
    requires InRange(scale)
    ensures forall c :: c in Drain(events, w, h, scale).calls ==> IsResize(c, w, h)
    decreases |events|
  {
    if events != [] && events[0] != Quit {
      var s := ScaleAfter(scale, events[0]);
      DrainKeepsScale(events[1..], w, h, s);
      assert IsResize(ResizeTo(w, h, s), w, h);
    }
  }

  /** A drain reports a quit exactly when a quit request is among the events. */
  lemma {:induction false} DrainQuitsIffQuitEvent(events: seq<Event>, w: nat, h: nat, scale: int)
    requires InRange(scale)
    ensures Drain(events, w, h, scale).quit <==> Quit in events
    decreases |events|
  {
    if events != [] && events[0] != Quit {
      assert events == [events[0]] + events[1..];
      DrainQuitsIffQuitEvent(events[1..], w, h, ScaleAfter(scale, events[0]));
    }
  }

  /** Nothing after the first quit request is looked at. */
  lemma {:induction false} DrainStopsAtQuit(pre: seq<Event>, post: seq<Event>, w: nat, h: nat, scale: int)
    requires InRange(scale) && Quit !in pre
    ensures var d := Drain(pre, w, h, scale);
      Drain(pre + [Quit] + post, w, h, scale) == DrainResult(d.scale, true, d.calls)
    decreases |pre|
  {
    if pre == [] {
      assert (pre + [Quit] + post)[0] == Quit;
    } else {
      assert (pre + [Quit] + post)[1..] == pre[1..] + [Quit] + post;
      DrainStopsAtQuit(pre[1..], post, w, h, ScaleAfter(scale, pre[0]));
    }
  }

  /** Every "=", "+" or "-" before the quit request makes exactly one resize request, even when the clamp leaves the scale as it was. */
  lemma {:induction false} DrainResizesPerScaleKey(events: seq<Event>, w: nat, h: nat, scale: int)
    requires InRange(scale)
    ensures |Drain(events, w, h, scale).calls| == ScaleKeysBeforeQuit(events)
    decreases |events|
  {
    if events != [] && events[0] != Quit {
      DrainResizesPerScaleKey(events[1..], w, h, ScaleAfter(scale, events[0]));
    }
  }

  /**
   * After a drain that resized the window, the last request is for the
   * scale the drain ends with; a drain that made no request left the scale
   * alone.
   */
  lemma {:induction false} DrainLastResizeIsFinalScale(events: seq<Event>, w: nat, h: nat, scale: int)
    requires InRange(scale)
    ensures var d := Drain(events, w, h, scale);
      d.calls != [] ==> d.calls[|d.calls| - 1] == ResizeTo(w, h, d.scale)
    ensures Drain(events, w, h, scale).calls == [] ==> Drain(events, w, h, scale).scale == scale
    decreases |events|
  {
    if events != [] && events[0] != Quit {
      DrainLastResizeIsFinalScale(events[1..], w, h, ScaleAfter(scale, events[0]));
    }
  }

  /** The request a scale key makes is for the scale one step from the scale before it; the drain then goes on from that scale. */
  lemma DrainRequestFollowsKey(k: Key, events: seq<Event>, w: nat, h: nat, scale: int)
    requires InRange(scale) && IsScaleKey(k)
    ensures var d, s := Drain([KeyDown(k)] + events, w, h, scale), NextScale(scale, k);
      d.calls != [] && d.calls[0] == ResizeTo(w, h, s) && d.calls[1..] == Drain(events, w, h, s).calls
  {
    assert ([KeyDown(k)] + events)[1..] == events;
  }

  /** One "+" from scale 1 on an 800x480 screen asks for 1600x960; three "-" from scale 1 stay at 1 and still ask three times. */
  lemma DrainScenarios(w: nat, h: nat)
    ensures Drain([KeyDown(Plus)], 800, 480, 1) == DrainResult(2, false, [SetWindowSize(1600, 960)])
    ensures Drain([KeyDown(Minus), KeyDown(Minus), KeyDown(Minus)], w, h, 1)
      == DrainResult(1, false, [SetWindowSize(w, h), SetWindowSize(w, h), SetWindowSize(w, h)])
  {
  }

  /** Outcome of a run of passes: the scale, whether a quit request ended it, the calls made. */
  datatype LoopResult = LoopResult(scale: int, quit: bool, calls: seq<Call>)

  /** Passes of the outer loop: drain, then (unless told to quit) present a frame with the given row pitch. */
  function Frames(passes: seq<seq<Event>>, w: nat, h: nat, pitch: nat, scale: int): (r: LoopResult)
    requires InRange(scale)
    ensures InRange(r.scale)
    decreases |passes|
  {
    if passes == [] then LoopResult(scale, false, [])
    else
      var d := Drain(passes[0], w, h, scale);
      if d.quit then LoopResult(d.scale, true, d.calls)
      else
        var rest := Frames(passes[1..], w, h, pitch, d.scale);
        LoopResult(rest.scale, rest.quit, d.calls + [PresentFrame(pitch)] + rest.calls)
  }

  /** The outer `while (1)` loop over the given passes; the scale carries over from pass to pass. */
  method RunLoop(passes: seq<seq<Event>>, w: nat, h: nat, pitch: nat, scale: int)
    returns (newScale: int, quit: bool, calls: seq<Call>)
    requires InRange(scale)
    ensures InRange(newScale)
    ensures LoopResult(newScale, quit, calls) == Frames(passes, w, h, pitch, scale)
  {
    newScale, quit, calls := scale, false, [];
    var f := 0;
    while f < |passes|
      invariant 0 <= f <= |passes|
      invariant InRange(newScale) && !quit
      invariant var r := Frames(passes[f..], w, h, pitch, newScale);
        Frames(passes, w, h, pitch, scale) == LoopResult(r.scale, r.quit, calls + r.calls)
    {
      assert passes[f..][1..] == passes[f + 1..];
      var drained;
      newScale, quit, drained := DrainEvents(passes[f], w, h, newScale);
      calls := calls + drained;
      if quit {
        return;
      }
      calls := calls + [PresentFrame(pitch)];
      f := f + 1;
    }
    assert passes[f..] == [];
  }

  /** Frames presented in a call log. */
  function PresentCount(calls: seq<Call>): nat {
    if calls == [] then 0
    else (if calls[0].PresentFrame? then 1 else 0) + PresentCount(calls[1..])
  }

  lemma {:induction false} PresentCountAppend(a: seq<Call>, b: seq<Call>)
    ensures PresentCount(a + b) == PresentCount(a) + PresentCount(b)
    decreases |a|
  {
    if a == [] {
      assert a + b == b;
    } else {
      assert (a + b)[1..] == a[1..] + b;
      PresentCountAppend(a[1..], b);
    }
  }

  lemma {:induction false} NoPresentsInResizes(calls: seq<Call>, w: nat, h: nat)
    requires forall c :: c in calls ==> IsResize(c, w, h)
    ensures PresentCount(calls) == 0
    decreases |calls|
  {
    if calls != [] {
      assert calls[0] in calls;
      NoPresentsInResizes(calls[1..], w, h);
    }
  }

  /** Index of the first pass holding a quit request, or the number of passes when none does. */
  function QuitPass(passes: seq<seq<Event>>): nat {
    if passes == [] then 0
    else if Quit in passes[0] then 0
    else 1 + QuitPass(passes[1..])
  }

  /**
   * A quit request ends the run in the pass it arrives in, before that
   * pass renders: exactly the passes before it present a frame, and the
   * run reports a quit exactly when some pass holds a quit request.
   */
  lemma {:induction false} FramesStopAtQuit(passes: seq<seq<Event>>, w: nat, h: nat, pitch: nat, scale: int)
    requires InRange(scale)
    ensures PresentCount(Frames(passes, w, h, pitch, scale).calls) == QuitPass(passes)
    ensures Frames(passes, w, h, pitch, scale).quit <==> exists i :: 0 <= i < |passes| && Quit in passes[i]
    decreases |passes|
  {
    if passes != [] {
      var d := Drain(passes[0], w, h, scale);
      DrainKeepsScale(passes[0], w, h, scale);
      DrainQuitsIffQuitEvent(passes[0], w, h, scale);
      NoPresentsInResizes(d.calls, w, h);
      if !d.quit {
        var rest := Frames(passes[1..], w, h, pitch, d.scale);
        FramesStopAtQuit(passes[1..], w, h, pitch, d.scale);
        PresentCountAppend(d.calls, [PresentFrame(pitch)]);
        PresentCountAppend(d.calls + [PresentFrame(pitch)], rest.calls);
        assert PresentCount([PresentFrame(pitch)]) == 1;
        if exists i :: 0 <= i < |passes| && Quit in passes[i] {
          var i :| 0 <= i < |passes| && Quit in passes[i];
          assert i > 0;
          assert Quit in passes[1..][i - 1];
        }
        if exists i :: 0 <= i < |passes[1..]| && Quit in passes[1..][i] {
          var i :| 0 <= i < |passes[1..]| && Quit in passes[1..][i];
          assert Quit in passes[i + 1];
        }
      }
    }
  }

  /** Across any number of passes every call is a resize at such a scale or a frame with the given pitch. */
  lemma {:induction false} FramesKeepScale(passes: seq<seq<Event>>, w: nat, h: nat, pitch: nat, scale: int)
    requires InRange(scale)
    ensures forall c :: c in Frames(passes, w, h, pitch, scale).calls ==> IsResize(c, w, h) || c == PresentFrame(pitch)
    decreases |passes|
  {
    if passes != [] {
      var d := Drain(passes[0], w, h, scale);
      DrainKeepsScale(passes[0], w, h, scale);
      if !d.quit {
        FramesKeepScale(passes[1..], w, h, pitch, d.scale);
      }
    }
  }

  /** The last window-size request in a call log, if any. */
  function LastResize(calls: seq<Call>): (r: Option<Call>)
    ensures r.Some? ==> r.value.SetWindowSize? && r.value in calls
    ensures r.None? ==> forall c :: c in calls ==> !c.SetWindowSize?
    ensures r.Some? ==>
      exists i :: 0 <= i < |calls| && calls[i] == r.value && (forall j :: i < j < |calls| ==> !calls[j].SetWindowSize?)
  {
    if calls == [] then None
    else if calls[|calls| - 1].SetWindowSize? then Some(calls[|calls| - 1])
    else
      var r := LastResize(calls[..|calls| - 1]);
      assert calls == calls[..|calls| - 1] + [calls[|calls| - 1]];
      r
  }

  lemma {:induction false} LastResizeAppend(a: seq<Call>, b: seq<Call>)
    ensures LastResize(a + b) == if LastResize(b).Some? then LastResize(b) else LastResize(a)
    decreases |b|
  {
    if b == [] {
      assert a + b == a;
    } else {
      var u := b[..|b| - 1];
      assert a + b == (a + u) + [b[|b| - 1]];
      assert (a + b)[..|a + b| - 1] == a + u;
      LastResizeAppend(a, u);
    }
  }

  /**
   * Across any number of passes the window is left at the size of the
   * final scale: the last request is `width*scale x height*scale` for the
   * scale the run ends with, and a run without requests keeps its scale.
   */
  lemma {:induction false} FramesLastResizeIsFinalScale(passes: seq<seq<Event>>, w: nat, h: nat, pitch: nat, scale: int)
    requires InRange(scale)
    ensures var r := Frames(passes, w, h, pitch, scale);
      match LastResize(r.calls)
      case Some(c) => c == ResizeTo(w, h, r.scale)
      case None => r.scale == scale
    decreases |passes|
  {
    if passes != [] {
      var d := Drain(passes[0], w, h, scale);
      DrainLastResizeIsFinalScale(passes[0], w, h, scale);
      assert d.calls != [] ==> LastResize(d.calls) == Some(ResizeTo(w, h, d.scale));
      if !d.quit {
        var rest := Frames(passes[1..], w, h, pitch, d.scale);
        FramesLastResizeIsFinalScale(passes[1..], w, h, pitch, d.scale);
        LastResizeAppend(d.calls, [PresentFrame(pitch)]);
        LastResizeAppend(d.calls + [PresentFrame(pitch)], rest.calls);
        assert LastResize([PresentFrame(pitch)]) == None;
      }
    }
  }
}
