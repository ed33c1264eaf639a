# imgutil in Dafny

A model of the core of the Go package `imgutil`. The package runs images through a chain of
processors, and it can run every frame of an animated GIF through that chain.

- **Processors** (`processors.dfy`)
  - `MaxSize` is the fitting arithmetic. Go's truncating division is written out as `Quot`.
  - `Resize(maxW, maxH)` asks the resampler for `MaxSize` of the image's size.
  - `Round` is a closure that overwrites its captured `antialias` flag on every call. It is
    modelled as the class `RoundProcessor`, whose method `Apply` updates the `antialias` field.
  - `roundTo` is the masked `draw.Src` draw into a fresh NRGBA buffer (`Canvas`).
  - The resampler, the top-anchored crop, the circle mask (its bounds and which points it lets
    through) and the caller's own processors are functions the model is given, as the record
    `Lib`. `Sound(lib)` states what the model relies on about them.
- **Chains** (`chain.dfy`)
  - `Prepend` is modelled here.
  - `Fold` is the left-to-right run of a chain. It threads the captured flag of every `Round`
    processor as a map `Flags`.
  - `RunChain` is the loop that calls the processors. It is proved to compute `Fold`.
  - `Process` is the still-image pipeline, with the decoder's outcome as its input.
- **Palettes** (`palettes.dfy`): `ensurePaletteTransparent`. It scans the palette. If no
  entry is `color.Transparent`, it cuts a palette of more than 255 entries down to its first
  255, and then appends `color.Transparent`.
  `ProcessAnimation` does not call it.
- **Animation** (`animation.dfy`)
  - `ProcessAnimation` takes the decoded GIF as input. Each frame is an object (`Frame`)
    whose bounds and pixels the loop overwrites in place.
  - A frame's pixels are kept as its decoded pixels followed by the list of draws made into
    it. `Render` turns that history into colours.
  - The colour arithmetic of `draw.Src` and `draw.Over` into a paletted frame is given as
    `Ops`.
  - The loop is specified by the function `Loop`, which mirrors it iteration by iteration,
    and by `ProcessedFrames`, the loop over all frames. The lemmas then say what every frame
    and every output is.

Colours are a datatype with three variants, for `color.RGBA`, `color.NRGBA` and
`color.Alpha16`, the types the core handles. Comparing them behaves like Go's interface
comparison, type first and then value: `color.RGBA{0, 0, 0, 0}` is not `color.Transparent`.

Where a doc comment and the code disagree, the model follows the code.

- The doc comment of `MaxSize` (processor.go:80-81) says it returns the largest size that fits
  within the given maxima. The code picks the axis by
  `w > h` alone, so it can enlarge. `Processors.MaxSizeCanEnlarge` proves
  `MaxSize(10, 50, 5, 1000) == (200, 1000)`.
- When the chain is empty, `ProcessAnimation` draws each frame onto itself. See the finding
  below.

## Model

| member | source | states |
|---|---|---|
| Palettes.WithTransparent | imgutil.go:16-30 | The result always holds color.Transparent. It is the input itself when the input already holds it. Otherwise it is the first min(n, 255) entries followed by color.Transparent, which has length min(n, 255) + 1. Those first entries are kept in order. |
| Palettes.EnsurePaletteTransparent | imgutil.go:16-30 | The scan loop followed by the truncate and append returns exactly WithTransparent of the palette. |
| Palettes.WithTransparentFits | imgutil.go:26-29 | A palette of at most 256 entries still has at most 256. |
| Palettes.WithTransparentIdempotent | imgutil.go:19-29 | Applying the function twice gives the same palette as applying it once. |
| Processors.Quot | processor.go:88-91 | Go's `/` on int truncates toward zero. It agrees with Euclidean division on a non-negative dividend and a positive divisor. With signs that differ, the quotient is at most zero. |
| Processors.MaxSize | processor.go:82-96 | Computes the size to resample to: (w, h) when both are below their maxima; otherwise (maxW, h*maxW/w) when w > h and (w*maxH/h, maxH) when not, with truncating division. Its properties are the MaxSize lemmas below. |
| Processors.MaxSizeDefinedOnImages | processor.go:82-96 | Non-negative sizes and positive maxima never reach a division by zero. |
| Processors.MaxSizeKeepsFitting | processor.go:83-85 | When w < maxW and h < maxH, the size is returned unchanged. |
| Processors.MaxSizeEqualSideScales | processor.go:83-85 | Because the test is strict, a side equal to its maximum takes the scaling path: (5, 5) within (5, 10) becomes (10, 10). |
| Processors.MaxSizeWide | processor.go:87-89 | Outside the early return with w > h, the width is exactly maxW and the height is h*maxW/w truncated: h'*w <= h*maxW < (h'+1)*w. |
| Processors.MaxSizeTall | processor.go:90-93 | Otherwise, including w == h and given h > 0, the height is exactly maxH and the width is w*maxH/h truncated: w'*h <= w*maxH < (w'+1)*h. |
| Processors.MaxSizeCanAskForZeroSide | processor.go:87-89 | The truncation can ask for a zero side: MaxSize(1000, 1, 100, 100) == (100, 0). |
| Processors.MaxSizeCanEnlarge | processor.go:87-93 | The axis is chosen by w > h alone: MaxSize(10, 50, 5, 1000) == (200, 1000), larger than the input. |
| Processors.ResizeApply | processor.go:14-23 | Computes the Resize processor's result: the resampler called with MaxSize of the image's Dx and Dy. Its property is ResizeToMaxSize. |
| Processors.ResizeToMaxSize | processor.go:14-23 | The size Resize asks for is MaxSize of the input's Dx and Dy, and it is never negative. When both requested sides and both input sides are positive, the result has exactly that size, at the origin. An empty input gives an empty result. |
| Processors.MaskPix | processor.go:68-77 | DrawMask writes exactly the points of src.Bounds() that lie in dst, in the source as aligned and in the mask's bounds as aligned. Such a point p gets the source pixel at p - src.Bounds().Min where the mask lets it through, and a zero pixel where it does not. Every other point of dst keeps its pixel. |
| Processors.RoundTo | processor.go:68-77 | roundTo replaces dst's pixels with the masked Src draw of src. |
| Processors.MaskedSquare | processor.go:50-53 | Computes a fresh side x side NRGBA buffer, at the origin, into which roundTo has drawn the source with radius r. |
| Processors.Rounded | processor.go:28-64 | Computes what one call of a Round processor returns, given its captured flag: the input cropped to a min(Dx, Dy) square, masked at native size, or, when antialiasing is in effect, upscaled, masked and scaled back. Its properties are the Rounded lemmas below. |
| Processors.RoundedIsSquare | processor.go:37-63 | On both paths the result is a square whose side is min(Dx, Dy), at the origin, because mind*2/2 == mind. |
| Processors.RoundedPalettedNotResampled | processor.go:50-59 | A paletted input is cropped and masked at native size into a fresh buffer with radius mind/2. That buffer is returned with no resampling. |
| Processors.RoundedAntialiased | processor.go:45-63 | When antialiasing is in effect, the square is upscaled to side 2*mind and masked with radius mind. The result is scaled back to side mind. |
| Processors.RoundedMasksCircle | processor.go:50-58 | Without antialiasing, each result pixel inside the circle is the cropped square's pixel. Each pixel outside the circle is a zero pixel. |
| Processors.AntialiasLatches | processor.go:33-34 | After a sequence of calls, the flag is on exactly when it started on and none of the inputs was paletted. |
| Processors.RoundProcessor.constructor | processor.go:27 | Round(antialias) captures the flag it is given. |
| Processors.RoundProcessor.Apply | processor.go:28-64 | One call overwrites the captured flag with !paletted && antialias. It returns Rounded of the old flag and the input. |
| Images.Canvas.constructor | processor.go:50 | image.NewNRGBA(r) has bounds r and every pixel zero. |
| Chain.Prepend | imgutil.go:134-136 | The result has length \|pN\| + 1. Its first element is p1 and the rest is pN. |
| Chain.Step | imgutil.go:71-73 | Computes one processor applied to the image, with the flags it reads and leaves. Only a Round processor changes the flags, and the flag keys are kept. |
| Chain.Fold | imgutil.go:125-127 | Computes the chain run over an image: the processors in list order, each on the previous one's output, threading the Round flags. The flag keys are kept. |
| Chain.FoldAppend | imgutil.go:71-73 | Processors run in list order. Running a + b is running b on the image and flags that a leaves. |
| Chain.FoldPrepend | imgutil.go:134-136 | A prepended processor runs first, then the rest of the chain. |
| Chain.FoldNeverReenables | processor.go:34 | A Round processor whose flag is off is still off after any chain run. |
| Chain.PalettedSwitchesHeadRoundOff | processor.go:33-34 | A Round processor at the head of a chain that is given a paletted image is switched off for good. |
| Chain.RunChain | imgutil.go:71-73 | The loop over the processors returns Fold's image and leaves every Round processor's flag as Fold says. |
| Chain.Process | imgutil.go:119-131 | A decode failure gives an error and changes no flag. Otherwise the result is the chain run over the decoded image. |
| Animation.DrawPix | imgutil.go:81-87 | draw.Draw(frame, frame.Rect, src, frame.Rect.Min, op) blends exactly the points of the frame's bounds that the source covers. Every other pixel is kept. |
| Animation.Frame.Draw | imgutil.go:81-87 | A draw into a frame appends itself to the frame's pixel history, with the frame's current bounds and palette. |
| Animation.Render | imgutil.go:81-87 | Computes a frame's colours from its pixel history: each draw is carried out with DrawPix, in order, on the pixels the draws before it left. A draw reads its source frame as that frame was at the time. |
| Animation.Finish | imgutil.go:75-88 | Computes a frame after its iteration: the output's bounds, the frame's palette, and its pixels followed by the draws of lines 80-88. Its properties are FrameTakesOutputBounds and FinishedPixel. |
| Animation.Loop | imgutil.go:68-92 | Computes the loop from frame i on, with the outputs and frames so far and the current flags and lst. It gives one output and one frame per remaining frame and keeps the flag keys. |
| Animation.LoopAt | imgutil.go:68-91 | Computes one iteration: the chain runs on frame i with the current flags, the frame is finished against lst, and Loop goes on from frame i + 1 with lst set to that frame. |
| Animation.ProcessedFrames | imgutil.go:65-92 | The loop gives one output and one finished frame per frame: the frame count is unchanged. The flag keys are kept. |
| Animation.LoopKeeps | imgutil.go:68-92 | Later iterations do not change the outputs and frames that earlier ones produced. |
| Animation.LoopOutputs | imgutil.go:68-73 | From any iteration on, each frame's output is the chain run on it with the flags the frames before it left. |
| Animation.LoopFrames | imgutil.go:76-91 | From any iteration on, each frame is finished against the frame finished just before it, or against the lst the iteration started with. |
| Animation.LoopFlags | imgutil.go:68-92 | From any iteration on, the loop leaves the chain with the flags the remaining frames, run in order, leave. |
| Animation.FlagsBeforeThenAfter | imgutil.go:68-92 | Running the chain over the frames before j and then over the rest leaves the flags that running it over all of them does. |
| Animation.OutputIsChainRun | imgutil.go:68-73 | Frame i's output is the chain run on frame i as decoded, with the flags that frames 0 to i-1 left. |
| Animation.FrameFinishedAgainstPrevious | imgutil.go:76-91 | Frame i takes its output's bounds and is drawn against lst = frame i-1 as that frame was finished. Frame 0 has no lst. |
| Animation.FlagsAfterLastFrame | imgutil.go:68-92 | The flags after the loop are those the last frame's chain run leaves. |
| Animation.HeadRoundSwitchedOff | imgutil.go:68-73 | GIF frames are paletted, so a Round processor at the head of the chain never antialiases after ProcessAnimation. |
| Animation.FrameTakesOutputBounds | imgutil.go:75-76 | Every frame ends with the bounds of its chain output and keeps its palette. |
| Animation.FinishedPixel | imgutil.go:78-88 | At a point of the new bounds, a later frame's colour is its output drawn Over the Src copy of lst where lst reaches, and Over the frame's own pixel elsewhere. The first frame's colour is its output by Src. |
| Animation.FirstFrameIsSrcOnly | imgutil.go:84-88 | Frame 0 holds its output stored by Src wherever the output reaches. |
| Animation.LaterFrameOverPrevious | imgutil.go:80-83 | A later frame holds its output drawn Over the Src copy of the previous frame. |
| Animation.ClearShowsPrevious | imgutil.go:80-83 | Where a later frame's output is clear and Over keeps clear sources out, the frame shows the previous frame stored by Src. |
| Animation.SelfDrawIgnoresOwnPixels | imgutil.go:70-83 | With the empty chain, wherever two consecutive frames overlap, the later frame's colour comes from the earlier frame alone. |
| Animation.Redraw | imgutil.go:78-88 | The draws of one iteration leave the frame exactly as Finish says. |
| Animation.ProcessFrame | imgutil.go:68-91 | One iteration changes only the frame and the flags. It carries out exactly one step of Loop. |
| Animation.ProcessFrames | imgutil.go:65-92 | The loop over the frame objects leaves each frame, and the flags, exactly as ProcessedFrames says. |
| Animation.ProcessAnimation | imgutil.go:53-100 | A decode failure gives an error and changes nothing. Zero frames give "no frames" and change nothing. Otherwise every frame is left as ProcessedFrames says, and the GIF's width and height are frame 0's new Dx and Dy. |

## Left out

- Codec I/O is not modelled: gif.DecodeAll, gif.EncodeAll, image.Decode, the PNG encoder,
  ProcessStream and ProcessAnimationStream. The decoder's outcome is an input (`Option`).
- imaging.Resize with Lanczos, and imaging.CropAnchor, are functions the model is given. This
  is floating-point resampling in a library outside the core. The lemmas that need a result of
  the requested size assume `Sound(lib)`.
- The geometry of circle.New is given: its bounds are `lib.maskBounds` and the points it lets through are `lib.inside`.
- The colour arithmetic of draw.Draw into a paletted frame is not modelled. That covers the
  nearest-palette conversion and alpha compositing. It is the record `Ops`. `OverKeepsClear`
  is the one assumption made about it.
- The pixels of a frame are a history of draws, and `Render` computes colours from it. The
  Pix/Stride buffer is not modelled.
  - Go's `PixOffset` uses the new `Rect.Min` with the old `Stride`. So after `frame.Rect` is
    overwritten, the frame's decoded pixels are re-addressed in Go. The model keeps them at
    their decoded points.
  - A new Rect larger than the old buffer makes Go's draws index out of range. That panic is
    not modelled.
- Error values are `Chain.Error`. The text of errors.Wrap is not modelled.
- The fields of gif.GIF other than the frames and the logical size are not modelled:
  Delay, Disposal, LoopCount, BackgroundIndex and the colour model.
- Caller-defined processors are not modelled beyond an index into `lib.custom`.
  - They are pure functions of the image, so a processor with state of its own is outside the
    model.
  - Every processor returns a `*image.NRGBA` and a GIF frame is a `*image.Paletted`, so `img`
    aliases the frame only with the empty chain. The model covers that case with `selfDraw`.
- Animation.ProcessAnimation requires that no frame object occurs twice (`Distinct`).
  gif.DecodeAll allocates every frame separately.
- Processors.ResizeToMaxSize: when MaxSize asks for exactly one zero side of a non-empty
  image, imaging.Resize keeps the aspect ratio with at least one pixel. `Sound` leaves that
  result open, so the lemma does not give its size. `MaxSizeCanAskForZeroSide` shows the case
  arises.
- Processors.MaxSize: the multiplications h*maxW and w*maxH are unbounded here. Go's int is
  64 bits and would wrap for huge sizes.
- Processors.MaxSize: its precondition excludes the inputs that divide by zero, which panic
  in Go.
- Chain.Processor: the maxima of a Resize processor are positive. Go accepts any int. A zero
  maximum can make MaxSize divide by zero; a negative one can pass negative sizes to the
  resampler.
- Palettes.EnsurePaletteTransparent returns a new sequence. When the palette has spare
  capacity, Go's append writes color.Transparent into the caller's backing array. That
  aliasing is not modelled.

## Findings

| source | as written | input that shows it | evidently intended | confidence | as-written member | corrected member |
|---|---|---|---|---|---|---|
| imgutil.go:70-83 | With no processors, `img` is the frame itself. The Src draw copies `lst` into the frame, and the Over draw then draws the frame onto itself. | An empty chain and two frames with the same bounds, where frame 1 has an opaque pixel that differs from frame 0's. Frame 1 ends with over(src(c0), src(c0)), which is built from frame 0's colour c0 alone, so frame 1's own pixel is lost. | Every later frame shows its own pixels drawn Over the previous frame, as it does when the chain is not empty. | not executed | Animation.SelfDrawIgnoresOwnPixels | Animation.LaterFrameOverPrevious |

In the model, `ProcessAnimation` follows the code: it passes `selfDraw = |chain| == 0` to the
loop. The compositing lemmas `FirstFrameIsSrcOnly`, `LaterFrameOverPrevious` and
`ClearShowsPrevious` are stated for the intended behaviour, `selfDraw = false`, which is
what every non-empty chain gets.
