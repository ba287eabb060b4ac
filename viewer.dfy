/**
 * main of fbview.c: resolve the device path, acquire the device, its
 * screen info, the pixel mapping, the SDL video subsystem, a window, a
 * renderer and a texture, run the render loop, and release what was
 * acquired. The outcome of every setup call and the events of every pass
 * are inputs; what main does is recorded as a call log.
 */
module Viewer {
  import opened Wrappers
  import opened CStrings
  import opened DevicePath
  import opened Geometry
  import opened Platform
  import opened RenderLoop

  /**
   * The outside world for one run: which setup calls succeed, what the
   * FBIOGET_VSCREENINFO query returns (None when it fails), and the events
   * pending at each pass of the render loop.
   */
  datatype Environment = Environment(
    openOk: bool,
    screenInfo: Option<ScreenInfo>,
    mmapOk: bool,
    videoOk: bool,
    windowOk: bool,
    rendererOk: bool,
    textureOk: bool,
    passes: seq<seq<Event>>)

  /** How a run ends: main returns a status, or it is still in its render loop when the passes run out. */
  datatype Exit = Exited(status: int) | StillRunning

  /** How many of the six resources setup holds when it stops: at its first failure, or all of them. */
  function AcquiredCount(env: Environment): (k: nat)
    ensures k <= |AcquireOrder|
    ensures k == |AcquireOrder| <==>
      (env.openOk && env.screenInfo.Some? && env.mmapOk && env.videoOk && env.windowOk && env.rendererOk && env.textureOk)
  {
    if !env.openOk then 0
    else if env.screenInfo.None? || !env.mmapOk then 1
    else if !env.videoOk then 2
    else if !env.windowOk then 3
    else if !env.rendererOk then 4
    else if !env.textureOk then 5
    else 6
  }

  /** The screen info setup works with (irrelevant when the query failed, as nothing uses it then). */
  function InfoOf(env: Environment): ScreenInfo {
    env.screenInfo.GetOr(ScreenInfo(0, 0, 0))
  }

  /** The six acquiring calls in order, with the arguments main passes them. */
  function SetupCalls(path: seq<char>, info: ScreenInfo): (r: seq<Call>)
    ensures |r| == |AcquireOrder|
    ensures forall i :: 0 <= i < |r| ==> EffectOf(r[i]) == Acquire(AcquireOrder[i])
  {
    [Open(path), Mmap(MappingLength(info)), VideoInit, CreateWindow(info.xres, info.yres),
     CreateRenderer, CreateTexture(TextureFormat(info.bitsPerPixel), info.xres, info.yres)]
  }

  /** The six releasing calls, texture first and device last. */
  function TeardownCalls(info: ScreenInfo): (r: seq<Call>)
    ensures |r| == |AcquireOrder|
    ensures forall i :: 0 <= i < |r| ==> EffectOf(r[i]) == Release(AcquireOrder[|AcquireOrder| - 1 - i])
  {
    [DestroyTexture, DestroyRenderer, DestroyWindow, VideoQuit, Munmap(MappingLength(info)), Close]
  }

  /** Setup call `k` acquires resource `k` while holding the first `k`, and the handle it works through is among them. */
  lemma AcquireStep(path: seq<char>, info: ScreenInfo, k: nat)
    requires k < |AcquireOrder|
    ensures Replay(AcquireOrder[..k], [SetupCalls(path, info)[k]]) == Some(AcquireOrder[..k + 1])
  {
    var held := AcquireOrder[..k];
    assert AcquireOrder[..k + 1] == held + [AcquireOrder[k]];
    if k == 0 {
      assert held == [];
    } else if k == 1 {
      assert held == [Device];
    } else if k == 2 {
      assert held == [Device, Mapping];
    } else if k == 3 {
      assert held == [Device, Mapping, Video];
    } else if k == 4 {
      assert held == [Device, Mapping, Video, Window];
    } else {
      assert held == [Device, Mapping, Video, Window, Renderer];
    }
    ReplayAcquire(held, SetupCalls(path, info)[k], AcquireOrder[k]);
  }

  /** The teardown call for resource `k - 1` pops it off the top of the first `k`. */
  lemma ReleaseStep(info: ScreenInfo, k: nat)
    requires 0 < k <= |AcquireOrder|
    ensures Replay(AcquireOrder[..k], [TeardownCalls(info)[|AcquireOrder| - k]]) == Some(AcquireOrder[..k - 1])
  {
    var held := AcquireOrder[..k];
    assert held[..k - 1] == AcquireOrder[..k - 1];
    var c := TeardownCalls(info)[|AcquireOrder| - k];
    assert EffectOf(c) == Release(held[k - 1]);
    assert [c][1..] == [];
  }

  /** The first `k` setup calls acquire the first `k` resources, each while the handles it needs are held. */
  lemma {:induction false} SetupAcquiresInOrder(path: seq<char>, info: ScreenInfo, k: nat)
    requires k <= |AcquireOrder|
    ensures Replay([], SetupCalls(path, info)[..k]) == Some(AcquireOrder[..k])
  {
    if k > 0 {
      var setup := SetupCalls(path, info);
      SetupAcquiresInOrder(path, info, k - 1);
      assert setup[..k] == setup[..k - 1] + [setup[k - 1]];
      ReplayAppend([], setup[..k - 1], [setup[k - 1]]);
      AcquireStep(path, info, k - 1);
    }
  }

  /** The last `k` teardown calls release the first `k` resources, last acquired first, leaving nothing held. */
  lemma {:induction false} TeardownReleasesInReverse(info: ScreenInfo, k: nat)
    requires k <= |AcquireOrder|
    ensures Replay(AcquireOrder[..k], TeardownCalls(info)[|AcquireOrder| - k..]) == Some([])
  {
    if k > 0 {
      var down := TeardownCalls(info)[|AcquireOrder| - k..];
      assert down == [down[0]] + TeardownCalls(info)[|AcquireOrder| - (k - 1)..];
      ReplayAppend(AcquireOrder[..k], [down[0]], TeardownCalls(info)[|AcquireOrder| - (k - 1)..]);
      ReleaseStep(info, k);
      TeardownReleasesInReverse(info, k - 1);
    } else {
      assert TeardownCalls(info)[|AcquireOrder|..] == [];
    }
  }

  /** Setup stopped after `k` acquisitions, then the matching teardown calls: each resource released once, in reverse order. */
  lemma SetupThenTeardownBalanced(path: seq<char>, info: ScreenInfo, k: nat)
    requires k <= |AcquireOrder|
    ensures Replay([], SetupCalls(path, info)[..k] + TeardownCalls(info)[|AcquireOrder| - k..]) == Some([])
  {
    SetupAcquiresInOrder(path, info, k);
    ReplayAppend([], SetupCalls(path, info)[..k], TeardownCalls(info)[|AcquireOrder| - k..]);
    TeardownReleasesInReverse(info, k);
  }

  /** A full setup, any passes of the render loop, and the quit teardown (if a quit came) keep the discipline. */
  lemma FullRunBalanced(path: seq<char>, info: ScreenInfo, loop: LoopResult, w: nat, h: nat, pitch: nat)
    requires forall c :: c in loop.calls ==> IsResize(c, w, h) || c == PresentFrame(pitch)
    ensures Replay([], SetupCalls(path, info) + loop.calls) == Some(AcquireOrder)
    ensures Replay([], SetupCalls(path, info) + loop.calls + TeardownCalls(info)) == Some([])
  {
    var setup := SetupCalls(path, info);
    SetupAcquiresInOrder(path, info, |AcquireOrder|);
    assert setup[..|AcquireOrder|] == setup;
    forall i | 0 <= i < |loop.calls|
      ensures EffectOf(loop.calls[i]) == Use && Needs(loop.calls[i]) <= set r | r in AcquireOrder
    {
      assert loop.calls[i] in loop.calls;
    }
    ReplayUses(AcquireOrder, loop.calls);
    assert AcquireOrder[..|AcquireOrder|] == AcquireOrder;
    ReplayAppend([], setup, loop.calls);
    ReplayAppend([], setup + loop.calls, TeardownCalls(info));
    TeardownReleasesInReverse(info, |AcquireOrder|);
    assert TeardownCalls(info)[0..] == TeardownCalls(info);
  }

  /**
   * The setup part of main, from open to SDL_CreateTexture. A failure at
   * any step releases exactly what was acquired before it, in reverse
   * order, through the release list written out at that step, and reports
   * failure; success leaves all six resources held.
   */
  method Setup(path: seq<char>, env: Environment) returns (calls: seq<Call>, ok: bool)
    ensures ok <==> AcquiredCount(env) == |AcquireOrder|
    ensures var k, info := AcquiredCount(env), InfoOf(env);
      calls == SetupCalls(path, info)[..k] + (if ok then [] else TeardownCalls(info)[|AcquireOrder| - k..])
  {
    calls := [];
    if !env.openOk {
      return calls, false;
    }
    calls := calls + [Open(path)];
    if env.screenInfo.None? {
      calls := calls + [Close];
      return calls, false;
    }
    var width, height, bpp := env.screenInfo.value.xres, env.screenInfo.value.yres, env.screenInfo.value.bitsPerPixel;
    var bytesPerPixel := bpp / 8;
    var fbSize := width * height * bytesPerPixel;
    if !env.mmapOk {
      calls := calls + [Close];
      return calls, false;
    }
    calls := calls + [Mmap(fbSize)];
    if !env.videoOk {
      calls := calls + [Munmap(fbSize), Close];
      return calls, false;
    }
    calls := calls + [VideoInit];
    var scale := 1;
    if !env.windowOk {
      calls := calls + [VideoQuit, Munmap(fbSize), Close];
      return calls, false;
    }
    calls := calls + [CreateWindow(width * scale, height * scale)];
    if !env.rendererOk {
      calls := calls + [DestroyWindow, VideoQuit, Munmap(fbSize), Close];
      return calls, false;
    }
    calls := calls + [CreateRenderer];
    var format := ARGB8888;
    if bpp == 16 {
      format := RGB565;
    }
    if !env.textureOk {
      calls := calls + [DestroyRenderer, DestroyWindow, VideoQuit, Munmap(fbSize), Close];
      return calls, false;
    }
    calls := calls + [CreateTexture(format, width, height)];
    ok := true;
  }

  /**
   * main: resolve the path, set up, and on success run the render loop
   * from scale 1; a quit request releases all six resources in reverse
   * order and returns 0, a setup failure returns 1. Either way every
   * resource acquired is released exactly once, last acquired first.
   */
  method Run(arg: Option<seq<char>>, env: Environment) returns (calls: seq<Call>, exit: Exit)
    requires ArgFits(arg)
    ensures var k, path, info := AcquiredCount(env), ResolvedPath(arg), InfoOf(env);
      k < |AcquireOrder| ==>
        exit == Exited(1) && calls == SetupCalls(path, info)[..k] + TeardownCalls(info)[|AcquireOrder| - k..]
    ensures var k, path, info := AcquiredCount(env), ResolvedPath(arg), InfoOf(env);
      var loop := Frames(env.passes, info.xres, info.yres, Pitch(info), 1);
      k == |AcquireOrder| ==>
        exit == (if loop.quit then Exited(0) else StillRunning) &&
        calls == SetupCalls(path, info) + loop.calls + (if loop.quit then TeardownCalls(info) else [])
    ensures exit.Exited? ==> Replay([], calls) == Some([])
    ensures exit == StillRunning ==> Replay([], calls) == Some(AcquireOrder)
  {
    var buf := ResolvePath(arg);
    var n := StrLen(buf);
    var path := buf[..n];
    var ok;
    calls, ok := Setup(path, env);
    if !ok {
      SetupThenTeardownBalanced(path, InfoOf(env), AcquiredCount(env));
      return calls, Exited(1);
    }
    var info := env.screenInfo.value;
    var width, height, bytesPerPixel := info.xres, info.yres, info.bitsPerPixel / 8;
    var fbSize := width * height * bytesPerPixel;
    assert calls == SetupCalls(path, info);
    var scale, quit, loopCalls := RunLoop(env.passes, width, height, width * bytesPerPixel, 1);
    FramesKeepScale(env.passes, width, height, width * bytesPerPixel, 1);
    FullRunBalanced(path, info, LoopResult(scale, quit, loopCalls), width, height, width * bytesPerPixel);
    calls := calls + loopCalls;
    if quit {
      calls := calls + [DestroyTexture, DestroyRenderer, DestroyWindow, VideoQuit, Munmap(fbSize), Close];
      exit := Exited(0);
    } else {
      exit := StillRunning;
    }
  }
}
