# fbview in Dafny

fbview is a single C program (`fbview.c`). It mirrors a Linux framebuffer
device into a resizable SDL window. This project models the deterministic
logic of its `main` and proves properties of it:

- **Device resolver.** The command-line argument becomes a device path in
  a 64-character buffer that starts as `"/dev/fb"`. With no argument, `"0"`
  is appended. An argument starting with `"/dev/"` is copied with
  `strncpy` (at most 63 characters) and explicitly NUL-terminated. Any
  other argument is appended with `strcat`. The banner id is whatever
  follows the last `'b'` in the path, or `"?"`. The buffer is an
  `array<char>`; `strcat` and `strncpy` are methods that update it in
  place, while `strncmp` and `strrchr` are functions over sequences
  (`CStrings.StrNEqual`, `CStrings.LastIndex`). Each Dafny `char` stands
  for one C `char`, that is one byte: the 63-character cut and the
  56-character bound below count bytes, so an argument holding non-ASCII
  UTF-8 is given byte by byte, one `char` per byte.
- **Geometry.** Bytes per pixel (`bpp / 8`), the mapping length, the
  texture row pitch, and the RGB565/ARGB8888 texture-format choice
  (module `Geometry`).
- **Render loop.** Each pass drains the pending events. A quit request
  leaves at once. `=`/`+` and `-` step the scale within 1..8, and every
  such key requests a window of `width*scale x height*scale`. Then one
  frame is presented with the row pitch (module `RenderLoop`). The drain
  and the pass loop are methods with loop invariants. Each one is proved
  equal to a recursive specification function.
- **Setup and teardown.** `main` (modelled as `Viewer.Run`) acquires six
  resources in order: device fd, mapping, SDL video, window, renderer,
  texture. It keeps a call log (`Platform.Call`) of these calls: each
  successful acquisition (`open`, `mmap`, `SDL_Init`, `SDL_CreateWindow`,
  `SDL_CreateRenderer`, `SDL_CreateTexture`), each `SDL_SetWindowSize`,
  one `PresentFrame` entry per rendered frame, and each release
  (`SDL_DestroyTexture`, `SDL_DestroyRenderer`, `SDL_DestroyWindow`,
  `SDL_Quit`, `munmap`, `close`). `Platform.Replay` runs a log against a
  stack of held resources. A resource may be acquired only if not held,
  used only while held, and released only from the top of the stack. The
  release list that the C code writes out at each failure site and at
  the quit label is proved to empty that stack exactly (module `Viewer`).

Outcomes of the system calls and SDL calls are inputs
(`Viewer.Environment`). This covers open, the `FBIOGET_VSCREENINFO`
query (with its screen info), mmap, `SDL_Init`, window, renderer and
texture creation, and the events pending at each pass of the loop.

Two behaviours of the code shape the model:

- `strcat` (fbview.c:24) has no bound check, so a bare id longer than 56
  characters overflows `fb_path` (7 characters of `"/dev/fb"`, the id,
  and the NUL must fit in 64). The model therefore requires that a bare
  id has at most 56 characters (`DevicePath.ArgFits`).
- `-` at scale 1 still calls `SDL_SetWindowSize`, at the scale-1 size
  (fbview.c:136-138), and likewise `=`/`+` at scale 8
  (fbview.c:130-132). `RenderLoop.DrainScenarios` and
  `RenderLoop.DrainResizesPerScaleKey` state this.

## Model

| member | source | states |
|---|---|---|
| `CStrings.StrNEqual` | fbview.c:18 | for NUL-free `a` and `b`, `strncmp(a, b, n) == 0`, a string reading as NUL from its end on; when both have at least `n` characters, exactly when their first `n` characters are equal |
| `CStrings.StrNEqualIsPrefix` | fbview.c:18 | `strncmp` over the whole of a NUL-free pattern succeeds exactly when the pattern is a prefix of the argument |
| `CStrings.Padded` | fbview.c:20 | what `strncpy` writes: exactly `count` characters, the source cut to `count` or padded with NULs |
| `CStrings.StrNCpy` | fbview.c:20 | the first `count` cells become the source cut or NUL-padded to `count` characters; the rest of the buffer is unchanged |
| `CStrings.CStrOfPadded` | fbview.c:20-21 | a strncpy result terminated after `count` cells holds the first `min(len, count)` characters of the source |
| `CStrings.StrCat` | fbview.c:24 | given room for the result, the source plus a NUL overwrite the old terminator; the C string becomes old string ++ source; every other cell is unchanged |
| `CStrings.StrLen` | fbview.c:31-33 | returns the index of the first NUL; the characters before it are the C string the buffer holds |
| `CStrings.CStr` | fbview.c:15-33 | a buffer's C string is its longest NUL-free prefix; the cell right after it is NUL |
| `CStrings.LastIndex` | fbview.c:53 | `strrchr`: None exactly when the character is absent; otherwise an index holding it, with no later occurrence |
| `DevicePath.ArgFits` | fbview.c:17-25 | what main needs of its argument: a NUL-free C string, and for the `strcat` branch one that fits after "/dev/fb" with its NUL; every C string of at most 56 characters fits |
| `DevicePath.ResolvedPath` | fbview.c:15-29 | for an argument that fits, the path has no NUL and is shorter than the 64-character buffer |
| `DevicePath.ResolvePath` | fbview.c:15-29 | the 64-cell buffer built in place ends in NUL on every branch and holds exactly `ResolvedPath(arg)` |
| `DevicePath.IsDevPath` | fbview.c:18 | `strncmp(arg, "/dev/", 5) == 0`: for a C string, exactly when it starts with "/dev/"; an argument of fewer than five characters never does |
| `DevicePath.DevPathVerbatim` | fbview.c:18-21 | a full path is used verbatim when it has at most 63 characters, and cut to its first 63 otherwise |
| `DevicePath.BareIdAppended` | fbview.c:22-24 | any other argument gives "/dev/fb" followed by the argument |
| `DevicePath.DefaultDevice` | fbview.c:26-28 | with no argument the path is "/dev/fb0" and the banner id is "0" |
| `DevicePath.FbId` | fbview.c:53-54 | if the path has a 'b', the id is the suffix after some 'b' and contains no 'b' (so after the last one); otherwise it is "?" |
| `DevicePath.BareIdRoundTrip` | fbview.c:53-54 | the banner gives back any bare id that contains no 'b' |
| `DevicePath.FbIdOfFb12` | fbview.c:53-54 | "/dev/fb12" shows id "12" |
| `Geometry.BytesPerPixel` | fbview.c:50 | truncating division: `8*r <= bpp < 8*r + 8` |
| `Geometry.MappingLength` | fbview.c:58 | the mapped length `width*height*bytes_per_pixel` is `yres` rows of one pitch each |
| `Geometry.Pitch` | fbview.c:144 | the row pitch `width*bytes_per_pixel` is zero exactly for an empty row or a depth under 8 bits |
| `Geometry.TextureFormat` | fbview.c:99-102 | RGB565 exactly for a 16-bit depth, whose pixel size it matches; every other depth gets the 4-byte ARGB8888 |
| `Geometry.MappingEmptyIff` | fbview.c:58 | the mapping length is zero exactly for an empty screen or a depth below 8 bits |
| `Geometry.FormatMatchesDepth` | fbview.c:99-102 | the texture format's pixel size equals the device's exactly for 16 bpp and for 32..39 bpp |
| `Geometry.TextureReadWithinMapping` | fbview.c:144 | the per-frame texture update reads only inside the mapping exactly when the texture pixel is no wider than the device pixel, or the screen is empty |
| `Geometry.Scenario800x480` | fbview.c:47-58 | 800x480 at 32 bpp maps 1,536,000 bytes with pitch 3200; depths 16, 24 and 32 give RGB565, ARGB8888 and ARGB8888 |
| `RenderLoop.NextScale` | fbview.c:129-140 | one key press keeps a scale in 1..8 |
| `RenderLoop.Drain` | fbview.c:125-142 | draining from a scale in 1..8 ends at a scale in 1..8 |
| `RenderLoop.DrainEvents` | fbview.c:125-142 | the in-place drain loop, which leaves on a quit event, ends in range and computes exactly `Drain` |
| `RenderLoop.DrainKeepsScale` | fbview.c:129-140 | every call a drain makes is a window-size request `width*k x height*k` with k in 1..8 |
| `RenderLoop.DrainQuitsIffQuitEvent` | fbview.c:126-127 | a drain reports quit exactly when a quit event is pending |
| `RenderLoop.DrainStopsAtQuit` | fbview.c:126-127 | events after the first quit are never looked at |
| `RenderLoop.DrainResizesPerScaleKey` | fbview.c:128-140 | exactly one resize request per `=`, `+` or `-` before the quit, even when the clamp leaves the scale unchanged |
| `RenderLoop.DrainLastResizeIsFinalScale` | fbview.c:129-140 | after the drain, the last request is for the final scale's size; with no request, the scale is unchanged |
| `RenderLoop.DrainRequestFollowsKey` | fbview.c:129-140 | a scale key requests exactly the size for `NextScale` of the scale before it, and the drain continues from that scale |
| `RenderLoop.DrainScenarios` | fbview.c:129-140 | "+" at scale 1 on 800x480 requests 1600x960; three "-" at scale 1 stay at 1 and still request three times |
| `RenderLoop.Frames` | fbview.c:123-149 | the scale stays in 1..8 across any number of passes |
| `RenderLoop.RunLoop` | fbview.c:123-149 | the pass loop, with the scale carried between passes, ends in range and computes exactly `Frames` |
| `RenderLoop.FramesStopAtQuit` | fbview.c:123-149 | exactly the passes before the first one holding a quit present a frame; the run reports quit exactly when some pass holds a quit event |
| `RenderLoop.FramesKeepScale` | fbview.c:123-149 | every loop call is a resize at a scale in 1..8 or a frame presented with the given pitch |
| `RenderLoop.LastResize` | fbview.c:132-138 | the last window-size request in a log, if any: it sits at some index of the log with no window-size request after it, and None means the log has none |
| `RenderLoop.FramesLastResizeIsFinalScale` | fbview.c:123-149 | across any number of passes the last request is `width*scale x height*scale` for the final scale; with no request the scale is unchanged |
| `Viewer.AcquiredCount` | fbview.c:33-119 | setup holds at most six resources, and all six exactly when every step succeeds |
| `Viewer.SetupCalls` | fbview.c:33-119 | the six acquiring calls with main's arguments; call i acquires the i-th resource of the acquisition order |
| `Viewer.TeardownCalls` | fbview.c:151-158 | the six releasing calls; call i releases the resources in reverse acquisition order, texture first and device last |
| `Viewer.SetupAcquiresInOrder` | fbview.c:33-119 | the first k setup calls acquire the first k resources in order, each while the handles it works through are held |
| `Viewer.TeardownReleasesInReverse` | fbview.c:151-158 | the last k teardown calls release the first k resources, last acquired first, and leave nothing held |
| `Viewer.SetupThenTeardownBalanced` | fbview.c:33-119 | setup stopped after k resources, then the matching releases: each released once, in reverse order |
| `Viewer.FullRunBalanced` | fbview.c:121-158 | full setup plus any loop calls keeps all six held; adding the quit teardown releases them all |
| `Viewer.Setup` | fbview.c:33-119 | fails exactly when some step fails; the log is the acquisitions made so far followed by their releases in reverse order |
| `Viewer.Run` | fbview.c:13-159 | status 1 on a setup failure with the matching teardown log; status 0 after a quit with full reverse teardown; still running without a quit; every exit releases everything acquired exactly once, last first |

## Left out

- What the real `open`, `ioctl`, `mmap`, `munmap` and `close` calls and
  the SDL calls do inside (window, renderer and texture internals, vsync
  pacing). They are foreign I/O. Their success or failure is an input.
- `SDL_RenderSetLogicalSize` (fbview.c:121). It is a foreign call with no
  logic and no resource. It is not in the call log.
- The `ioctl(FBIOGET_VSCREENINFO)` query (fbview.c:41) and `SDL_PollEvent`
  (fbview.c:125) are not entries of the call log. The query's outcome is
  `Viewer.Environment.screenInfo`, and the polled events are the passes'
  event lists. So `Platform.Replay` does not check that the query runs
  while the fd is held.
- `SDL_UpdateTexture`, `SDL_RenderClear`, `SDL_RenderCopy` and
  `SDL_RenderPresent` (fbview.c:144-148) are one `PresentFrame(pitch)`
  log entry per frame. Only the pitch passed to `SDL_UpdateTexture` is
  kept, and their order within a frame is not modelled.
- The contents of the mapped pixel memory, and the driver writing it
  concurrently. This is shared memory with nothing to state.
- `printf`/`perror` logging, including the banner. `Viewer.Run` does not
  compute the banner id, which is only printed. `DevicePath.FbId` models
  it separately.
- Arguments after the first. `main` ignores them, so the argument is one
  optional string.
- The unbounded `while (1)` loop as a liveness concern. It is modelled
  over a finite list of passes, and a run with no quit ends
  `StillRunning`.
- Geometry.MappingLength: C `int` overflow of `width*height*bytes_per_pixel`
  (fbview.c:58) is not modelled, because all sizes are unbounded naturals.
  The code does not guard against it either.
- RenderLoop.DrainEvents: C `int` overflow of `width*scale` and
  `height*scale` in window-size requests is not modelled, for the same
  reason.
