/**
 * ProcessAnimation: every frame of a decoded GIF is run through the processor
 * chain, takes the bounds of the result and is recomposited in place against
 * the frame before it; the GIF's logical size then becomes the first frame's.
 */
module Animation {
  import opened Wrappers
  import opened Geometry
  import opened Images
  import opened Processors
  import opened Chain

  /** draw.Op */
  datatype Op = Src | Over

  /**
   * The colour math of a draw into a paletted frame, which the model is given:
   * src(palette, s) is the colour Src stores for source colour s, and
   * over(palette, s, d) the colour Over stores for s drawn over the current colour d.
   */
  datatype Ops = Ops(src: (seq<Color>, Color) -> Color, over: (seq<Color>, Color, Color) -> Color)

  /** Over with a clear source leaves the destination as it was. */
  ghost predicate OverKeepsClear(ops: Ops) {
    forall palette: seq<Color>, s: Color, d: Color :: s.Clear() ==> ops.over(palette, s, d) == d
  }

  function Blend(ops: Ops, op: Op, palette: seq<Color>, s: Color, d: Color): Color {
    match op
    case Src => ops.src(palette, s)
    case Over => ops.over(palette, s, d)
  }

  /**
   * The pixels of a frame after draw.Draw(frame, rect, src, rect.Min, op) where
   * rect is the frame's own bounds: destination and source points coincide and
   * the draw is clipped to the source's bounds; every other pixel is kept.
   */
  function DrawPix(pix: map<Point, Color>, rect: Rect, palette: seq<Color>, src: Image, op: Op, ops: Ops): (r: map<Point, Color>)
    ensures forall p :: p in Points(rect) && p in Points(src.rect) ==>
      PixelAt(r, p) == Blend(ops, op, palette, src.At(p), PixelAt(pix, p))
    ensures forall p :: !(p in Points(rect) && p in Points(src.rect)) ==> PixelAt(r, p) == PixelAt(pix, p)
  {
    pix + map p | p in Points(rect) * Points(src.rect) :: Blend(ops, op, palette, src.At(p), PixelAt(pix, p))
  }

  /** The image a draw into a frame reads from. */
  datatype Source =
    | Picture(img: Image)      // an image of its own
    | Itself                   // the frame being drawn into, as it is at the time of the draw
    | Other(frame: FrameState) // another frame, as it is at the time of the draw

  /** A frame's pixels: the decoded ones and then, in order, the draws made into the frame. */
  datatype Pixels =
    | Decoded(pix: map<Point, Color>)
    | Drawn(under: Pixels, rect: Bounds, palette: seq<Color>, src: Source, op: Op)

  /** The value of a frame: its bounds, its palette and its pixels. */
  datatype FrameState = FrameState(rect: Bounds, palette: seq<Color>, pix: Pixels) {
    /** The frame as an image.Image, its draws carried out with the colour math ops. */
    function AsImage(ops: Ops): Image { Image(PalettedModel(palette), rect, Render(pix, ops)) }
  }

  /** The colours of a frame's pixels, each draw carried out on the pixels as the draws before it left them. */
  function Render(px: Pixels, ops: Ops): map<Point, Color>
    decreases px
  {
    match px
    case Decoded(pix) => pix
    case Drawn(under, rect, palette, src, op) =>
      var base := Render(under, ops);
      var img := match src
        case Picture(img) => img
        case Itself => Image(PalettedModel(palette), rect, base)
        case Other(f) => Image(PalettedModel(f.palette), f.rect, Render(f.pix, ops));
      DrawPix(base, rect, palette, img, op, ops)
  }

  /** A GIF frame, an *image.Paletted whose bounds and pixels the loop overwrites. */
  class Frame {
    var rect: Bounds
    var palette: seq<Color>
    var pix: Pixels

    function State(): FrameState
      reads this
    {
      FrameState(rect, palette, pix)
    }

    /** draw.Draw(frame, frame.Rect, src, frame.Rect.Min, op) */
    method Draw(src: Source, op: Op)
      modifies this`pix
      ensures pix == Drawn(old(pix), rect, palette, src, op)
    {
      pix := Drawn(pix, rect, palette, src, op);
    }
  }

  /** A decoded *gif.GIF: its frames and the logical screen size of its Config. */
  class Gif {
    const frames: seq<Frame>
    var width: int
    var height: int
  }

  ghost function States(frames: seq<Frame>): (s: seq<FrameState>)
    reads set f | f in frames
    ensures |s| == |frames|
    ensures forall k :: 0 <= k < |frames| ==> s[k] == frames[k].State()
    decreases |frames|
  {
    if frames == [] then [] else [frames[0].State()] + States(frames[1..])
  }

  /**
   * A frame after its iteration of the loop, given its value before, the chain's
   * output and the frame finished just before it. With selfDraw the image drawn
   * is the frame itself, as it is when the chain is empty.
   */
  function Finish(orig: FrameState, out: Image, prev: Option<FrameState>, selfDraw: bool): FrameState {
    var rect := out.rect;
    var pal := orig.palette;
    var top := if selfDraw then Itself else Picture(out);
    match prev
    case None => FrameState(rect, pal, Drawn(orig.pix, rect, pal, top, Src))
    case Some(lst) => FrameState(rect, pal, Drawn(Drawn(orig.pix, rect, pal, Other(lst), Src), rect, pal, top, Over))
  }
  /** What the loop leaves: each frame's chain output, each frame as finished, and the flags after the last frame. */
  datatype Run = Run(outs: seq<Image>, frames: seq<FrameState>, flags: Flags)

  /**
   * The loop from frame i on: the chain runs on frame i with the flags the frames
   * before it left, and the frame is finished against lst, the frame finished
   * before it; outs and done hold what frames 0 to i - 1 gave.
   */
  function Loop(chain: seq<Processor>, origs: seq<FrameState>, i: nat, flags: Flags, lst: Option<FrameState>,
                outs: seq<Image>, done: seq<FrameState>, selfDraw: bool, lib: Lib, ops: Ops): (r: Run)
    requires Rounds(chain) <= flags.Keys && i <= |origs|
    ensures |r.outs| == |outs| + |origs| - i && |r.frames| == |done| + |origs| - i && r.flags.Keys == flags.Keys
    decreases |origs| - i, 1
  {
    if i == |origs| then Run(outs, done, flags) else LoopAt(chain, origs, i, flags, lst, outs, done, selfDraw, lib, ops)
  }

  /** Loop from a frame i that exists. */
  function LoopAt(chain: seq<Processor>, origs: seq<FrameState>, i: nat, flags: Flags, lst: Option<FrameState>,
                  outs: seq<Image>, done: seq<FrameState>, selfDraw: bool, lib: Lib, ops: Ops): (r: Run)
    requires Rounds(chain) <= flags.Keys && i < |origs|
    ensures |r.outs| == |outs| + |origs| - i && |r.frames| == |done| + |origs| - i && r.flags.Keys == flags.Keys
    decreases |origs| - i, 0
  {
    var (img, flags') := Fold(chain, origs[i].AsImage(ops), flags, lib);
    var frame := Finish(origs[i], img, lst, selfDraw);
    Loop(chain, origs, i + 1, flags', Some(frame), outs + [img], done + [frame], selfDraw, lib, ops)
  }

  /** The whole loop over the frames, starting from the flags the chain holds. */
  function ProcessedFrames(chain: seq<Processor>, origs: seq<FrameState>, flags: Flags, selfDraw: bool, lib: Lib, ops: Ops): (r: Run)
    requires Rounds(chain) <= flags.Keys
    ensures |r.outs| == |origs| && |r.frames| == |origs| && r.flags.Keys == flags.Keys
  {
    Loop(chain, origs, 0, flags, None, [], [], selfDraw, lib, ops)
  }

  /** One iteration: frame i's output and finished frame are appended and frame i + 1 is finished against it. */
  lemma LoopStep(chain: seq<Processor>, origs: seq<FrameState>, i: nat, flags: Flags, lst: Option<FrameState>,
                 outs: seq<Image>, done: seq<FrameState>, selfDraw: bool, lib: Lib, ops: Ops)
    requires Rounds(chain) <= flags.Keys && i < |origs|
    ensures var (img, flags') := Fold(chain, origs[i].AsImage(ops), flags, lib);
      var frame := Finish(origs[i], img, lst, selfDraw);
      Loop(chain, origs, i, flags, lst, outs, done, selfDraw, lib, ops) ==
        Loop(chain, origs, i + 1, flags', Some(frame), outs + [img], done + [frame], selfDraw, lib, ops)
  {
  }

  lemma LoopStepTo(chain: seq<Processor>, origs: seq<FrameState>, i: nat, flags: Flags, lst: Option<FrameState>,
                   outs: seq<Image>, done: seq<FrameState>, selfDraw: bool, lib: Lib, ops: Ops, img: Image, flags': Flags)
    requires Rounds(chain) <= flags.Keys && i < |origs| && (img, flags') == Fold(chain, origs[i].AsImage(ops), flags, lib)
    ensures Rounds(chain) <= flags'.Keys
    ensures Loop(chain, origs, i, flags, lst, outs, done, selfDraw, lib, ops) ==
      Loop(chain, origs, i + 1, flags', Some(Finish(origs[i], img, lst, selfDraw)), outs + [img], done + [Finish(origs[i], img, lst, selfDraw)], selfDraw, lib, ops)
  {
  }

  /** Later iterations leave the outputs and frames already produced as they are. */
  lemma {:induction false} LoopKeeps(chain: seq<Processor>, origs: seq<FrameState>, i: nat, flags: Flags, lst: Option<FrameState>,
                                     outs: seq<Image>, done: seq<FrameState>, selfDraw: bool, lib: Lib, ops: Ops, k: nat)
    requires Rounds(chain) <= flags.Keys && i <= |origs|
    ensures var r := Loop(chain, origs, i, flags, lst, outs, done, selfDraw, lib, ops);
      (k < |outs| ==> r.outs[k] == outs[k]) && (k < |done| ==> r.frames[k] == done[k])
    decreases |origs| - i
  {
    if i < |origs| {
      LoopStep(chain, origs, i, flags, lst, outs, done, selfDraw, lib, ops);
      var (img, flags') := Fold(chain, origs[i].AsImage(ops), flags, lib);
      var frame := Finish(origs[i], img, lst, selfDraw);
      LoopKeeps(chain, origs, i + 1, flags', Some(frame), outs + [img], done + [frame], selfDraw, lib, ops, k);
    }
  }

  /** The flags the chain holds once frames 0 to i - 1 have been run through it. */
  function FlagsBefore(chain: seq<Processor>, origs: seq<FrameState>, i: nat, flags: Flags, lib: Lib, ops: Ops): (f: Flags)
    requires Rounds(chain) <= flags.Keys && i <= |origs|
    ensures f.Keys == flags.Keys
  {
    if i == 0 then flags
    else Fold(chain, origs[i - 1].AsImage(ops), FlagsBefore(chain, origs, i - 1, flags, lib, ops), lib).1
  }

  /** From any iteration on, each frame's output is the chain run on it with the flags the frames before it left. */
  lemma {:induction false} LoopOutputs(chain: seq<Processor>, origs: seq<FrameState>, j: nat, flags0: Flags, flags: Flags, lst: Option<FrameState>,
                                       outs: seq<Image>, done: seq<FrameState>, selfDraw: bool, lib: Lib, ops: Ops, i: nat)
    requires Rounds(chain) <= flags0.Keys && j <= i < |origs| && |outs| == j
    requires flags == FlagsBefore(chain, origs, j, flags0, lib, ops)
    ensures Loop(chain, origs, j, flags, lst, outs, done, selfDraw, lib, ops).outs[i] ==
      Fold(chain, origs[i].AsImage(ops), FlagsBefore(chain, origs, i, flags0, lib, ops), lib).0
    decreases i - j
  {
    LoopStep(chain, origs, j, flags, lst, outs, done, selfDraw, lib, ops);
    var step := Fold(chain, origs[j].AsImage(ops), flags, lib);
    var frame := Finish(origs[j], step.0, lst, selfDraw);
    if i == j {
      LoopKeeps(chain, origs, j + 1, step.1, Some(frame), outs + [step.0], done + [frame], selfDraw, lib, ops, j);
    } else {
      LoopOutputs(chain, origs, j + 1, flags0, step.1, Some(frame), outs + [step.0], done + [frame], selfDraw, lib, ops, i);
    }
  }

  /** From any iteration on, each frame is finished against the frame finished just before it. */
  lemma {:induction false} LoopFrames(chain: seq<Processor>, origs: seq<FrameState>, j: nat, flags: Flags, lst: Option<FrameState>,
                                      outs: seq<Image>, done: seq<FrameState>, selfDraw: bool, lib: Lib, ops: Ops, i: nat)
    requires Rounds(chain) <= flags.Keys && j <= i < |origs| && |outs| == j && |done| == j
    ensures var r := Loop(chain, origs, j, flags, lst, outs, done, selfDraw, lib, ops);
      r.frames[i] == Finish(origs[i], r.outs[i], if i == j then lst else Some(r.frames[i - 1]), selfDraw)
    decreases i - j
  {
    LoopStep(chain, origs, j, flags, lst, outs, done, selfDraw, lib, ops);
    var step := Fold(chain, origs[j].AsImage(ops), flags, lib);
    var frame := Finish(origs[j], step.0, lst, selfDraw);
    LoopKeeps(chain, origs, j + 1, step.1, Some(frame), outs + [step.0], done + [frame], selfDraw, lib, ops, j);
    if i > j {
      LoopFrames(chain, origs, j + 1, step.1, Some(frame), outs + [step.0], done + [frame], selfDraw, lib, ops, i);
    }
  }

  /** The flags the chain holds once frames j to the last have been run through it, starting from flags. */
  function FlagsAfter(chain: seq<Processor>, origs: seq<FrameState>, j: nat, flags: Flags, lib: Lib, ops: Ops): (f: Flags)
    requires Rounds(chain) <= flags.Keys && j <= |origs|
    ensures f.Keys == flags.Keys
    decreases |origs| - j
  {
    if j == |origs| then flags
    else FlagsAfter(chain, origs, j + 1, Fold(chain, origs[j].AsImage(ops), flags, lib).1, lib, ops)
  }

  /** From any iteration on, the loop leaves the flags the remaining frames, run in order, leave. */
  lemma {:induction false} LoopFlags(chain: seq<Processor>, origs: seq<FrameState>, j: nat, flags: Flags, lst: Option<FrameState>,
                                     outs: seq<Image>, done: seq<FrameState>, selfDraw: bool, lib: Lib, ops: Ops)
    requires Rounds(chain) <= flags.Keys && j <= |origs|
    ensures Loop(chain, origs, j, flags, lst, outs, done, selfDraw, lib, ops).flags == FlagsAfter(chain, origs, j, flags, lib, ops)
    decreases |origs| - j
  {
    if j < |origs| {
      LoopStep(chain, origs, j, flags, lst, outs, done, selfDraw, lib, ops);
      var (img, flags') := Fold(chain, origs[j].AsImage(ops), flags, lib);
      var frame := Finish(origs[j], img, lst, selfDraw);
      LoopFlags(chain, origs, j + 1, flags', Some(frame), outs + [img], done + [frame], selfDraw, lib, ops);
    }
  }

  /** Running the frames before j and then the rest is running all of them. */
  lemma {:induction false} FlagsBeforeThenAfter(chain: seq<Processor>, origs: seq<FrameState>, j: nat, flags: Flags, lib: Lib, ops: Ops)
    requires Rounds(chain) <= flags.Keys && j <= |origs|
    ensures FlagsAfter(chain, origs, j, FlagsBefore(chain, origs, j, flags, lib, ops), lib, ops) == FlagsBefore(chain, origs, |origs|, flags, lib, ops)
    decreases |origs| - j
  {
    if j < |origs| {
      FlagsBeforeThenAfter(chain, origs, j + 1, flags, lib, ops);
    }
  }

  /** Each frame's output is the chain run on that frame with the flags the frames before it left. */
  lemma OutputIsChainRun(chain: seq<Processor>, origs: seq<FrameState>, flags: Flags, selfDraw: bool, lib: Lib, ops: Ops, i: nat)
    requires Rounds(chain) <= flags.Keys && i < |origs|
    ensures ProcessedFrames(chain, origs, flags, selfDraw, lib, ops).outs[i] ==
      Fold(chain, origs[i].AsImage(ops), FlagsBefore(chain, origs, i, flags, lib, ops), lib).0
  {
    LoopOutputs(chain, origs, 0, flags, flags, None, [], [], selfDraw, lib, ops, i);
  }

  /** Frame i is finished against frame i - 1 as that was left; frame 0 has no predecessor. */
  lemma FrameFinishedAgainstPrevious(chain: seq<Processor>, origs: seq<FrameState>, flags: Flags, selfDraw: bool, lib: Lib, ops: Ops, i: nat)
    requires Rounds(chain) <= flags.Keys && i < |origs|
    ensures var r := ProcessedFrames(chain, origs, flags, selfDraw, lib, ops);
      r.frames[i] == Finish(origs[i], r.outs[i], if i == 0 then None else Some(r.frames[i - 1]), selfDraw)
  {
    LoopFrames(chain, origs, 0, flags, None, [], [], selfDraw, lib, ops, i);
  }

  /** The chain is left with the flags the last frame left. */
  lemma FlagsAfterLastFrame(chain: seq<Processor>, origs: seq<FrameState>, flags: Flags, selfDraw: bool, lib: Lib, ops: Ops)
    requires Rounds(chain) <= flags.Keys
    ensures ProcessedFrames(chain, origs, flags, selfDraw, lib, ops).flags == FlagsBefore(chain, origs, |origs|, flags, lib, ops)
  {
    LoopFlags(chain, origs, 0, flags, None, [], [], selfDraw, lib, ops);
    FlagsBeforeThenAfter(chain, origs, 0, flags, lib, ops);
  }

  /** Every GIF frame is paletted, so a Round processor at the head of the chain never antialiases after the loop. */
  lemma HeadRoundSwitchedOff(chain: seq<Processor>, origs: seq<FrameState>, flags: Flags, selfDraw: bool, lib: Lib, ops: Ops)
    requires Rounds(chain) <= flags.Keys && origs != [] && chain != [] && chain[0].Round?
    ensures !ProcessedFrames(chain, origs, flags, selfDraw, lib, ops).flags[chain[0].round]
  {
    FlagsAfterLastFrame(chain, origs, flags, selfDraw, lib, ops);
    PalettedSwitchesHeadRoundOff(chain, origs[|origs| - 1].AsImage(ops), FlagsBefore(chain, origs, |origs| - 1, flags, lib, ops), lib);
  }

  /** Every frame takes the bounds of its chain output and keeps its palette. */
  lemma FrameTakesOutputBounds(chain: seq<Processor>, origs: seq<FrameState>, flags: Flags, selfDraw: bool, lib: Lib, ops: Ops, i: nat)
    requires Rounds(chain) <= flags.Keys && i < |origs|
    ensures var r := ProcessedFrames(chain, origs, flags, selfDraw, lib, ops);
      r.frames[i].rect == r.outs[i].rect && r.frames[i].palette == origs[i].palette
  {
    FrameFinishedAgainstPrevious(chain, origs, flags, selfDraw, lib, ops, i);
  }

  /**
   * The colour of a finished frame at a point of its new bounds: Src of the frame
   * before it, where that frame reaches, then the chain's output drawn Over; the
   * first frame takes the output by Src alone. With selfDraw the image drawn last
   * is the frame as the earlier draw left it.
   */
  lemma FinishedPixel(orig: FrameState, out: Image, prev: Option<FrameState>, selfDraw: bool, ops: Ops, p: Point)
    requires out.rect.Contains(p)
    ensures var pal := orig.palette;
      var below := match prev
        case None => orig.AsImage(ops).At(p)
        case Some(lst) => if lst.rect.Contains(p) then ops.src(pal, lst.AsImage(ops).At(p)) else orig.AsImage(ops).At(p);
      var top := if selfDraw then below else out.At(p);
      Finish(orig, out, prev, selfDraw).AsImage(ops).At(p) == Blend(ops, if prev.None? then Src else Over, pal, top, below)
  {
    var rect, pal := out.rect, orig.palette;
    var top := if selfDraw then Itself else Picture(out);
    match prev {
      case None =>
        var img := if selfDraw then Image(PalettedModel(pal), rect, Render(orig.pix, ops)) else out;
        assert Render(Drawn(orig.pix, rect, pal, top, Src), ops) == DrawPix(Render(orig.pix, ops), rect, pal, img, Src, ops);
      case Some(lst) =>
        var inner := Drawn(orig.pix, rect, pal, Other(lst), Src);
        assert Render(inner, ops) == DrawPix(Render(orig.pix, ops), rect, pal, lst.AsImage(ops), Src, ops);
        var img := if selfDraw then Image(PalettedModel(pal), rect, Render(inner, ops)) else out;
        assert Render(Drawn(inner, rect, pal, top, Over), ops) == DrawPix(Render(inner, ops), rect, pal, img, Over, ops);
    }
  }

  /** The first frame holds the chain's output, stored by Src, wherever the output reaches. */
  lemma FirstFrameIsSrcOnly(chain: seq<Processor>, origs: seq<FrameState>, flags: Flags, lib: Lib, ops: Ops, p: Point)
    requires Rounds(chain) <= flags.Keys && origs != []
    ensures var r := ProcessedFrames(chain, origs, flags, false, lib, ops);
      r.outs[0].rect.Contains(p) ==> r.frames[0].AsImage(ops).At(p) == ops.src(origs[0].palette, r.outs[0].At(p))
  {
    var r := ProcessedFrames(chain, origs, flags, false, lib, ops);
    FrameFinishedAgainstPrevious(chain, origs, flags, false, lib, ops, 0);
    if r.outs[0].rect.Contains(p) {
      FinishedPixel(origs[0], r.outs[0], None, false, ops, p);
    }
  }

  /**
   * A later frame holds its chain output drawn Over the frame before it, where
   * that reaches, and over its own decoded pixels elsewhere.
   */
  lemma LaterFrameOverPrevious(chain: seq<Processor>, origs: seq<FrameState>, flags: Flags, lib: Lib, ops: Ops, i: nat, p: Point)
    requires Rounds(chain) <= flags.Keys && 0 < i < |origs|
    ensures var r := ProcessedFrames(chain, origs, flags, false, lib, ops);
      var pal := origs[i].palette;
      var lst := r.frames[i - 1];
      var below := if lst.rect.Contains(p) then ops.src(pal, lst.AsImage(ops).At(p)) else origs[i].AsImage(ops).At(p);
      r.outs[i].rect.Contains(p) ==> r.frames[i].AsImage(ops).At(p) == ops.over(pal, r.outs[i].At(p), below)
  {
    var r := ProcessedFrames(chain, origs, flags, false, lib, ops);
    FrameFinishedAgainstPrevious(chain, origs, flags, false, lib, ops, i);
    if r.outs[i].rect.Contains(p) {
      FinishedPixel(origs[i], r.outs[i], Some(r.frames[i - 1]), false, ops, p);
    }
  }

  /** Where a later frame's output is clear, the frame shows the frame before it, stored by Src. */
  lemma ClearShowsPrevious(chain: seq<Processor>, origs: seq<FrameState>, flags: Flags, lib: Lib, ops: Ops, i: nat, p: Point)
    requires Rounds(chain) <= flags.Keys && 0 < i < |origs| && OverKeepsClear(ops)
    ensures var r := ProcessedFrames(chain, origs, flags, false, lib, ops);
      r.outs[i].rect.Contains(p) && r.frames[i - 1].rect.Contains(p) && r.outs[i].At(p).Clear() ==>
        r.frames[i].AsImage(ops).At(p) == ops.src(origs[i].palette, r.frames[i - 1].AsImage(ops).At(p))
  {
    LaterFrameOverPrevious(chain, origs, flags, lib, ops, i, p);
  }

  /**
   * With the empty chain the Over draw reads the frame itself after the Src copy
   * of the frame before it, so where both frames reach, a later frame's colour is
   * made from the frame before it alone: its own decoded pixels are lost.
   */
  lemma SelfDrawIgnoresOwnPixels(origs: seq<FrameState>, flags: Flags, lib: Lib, ops: Ops, i: nat, p: Point)
    requires 0 < i < |origs|
    ensures var r := ProcessedFrames([], origs, flags, true, lib, ops);
      var pal := origs[i].palette;
      var s := ops.src(pal, r.frames[i - 1].AsImage(ops).At(p));
      r.outs[i].rect.Contains(p) && r.frames[i - 1].rect.Contains(p) ==> r.frames[i].AsImage(ops).At(p) == ops.over(pal, s, s)
  {
    var r := ProcessedFrames([], origs, flags, true, lib, ops);
    FrameFinishedAgainstPrevious([], origs, flags, true, lib, ops, i);
    if r.outs[i].rect.Contains(p) {
      FinishedPixel(origs[i], r.outs[i], Some(r.frames[i - 1]), true, ops, p);
    }
  }

  /**
   * The draws of one iteration, once the frame has taken the bounds of img: the
   * frame lst finished before it by Src, then img by Over, or img alone by Src for
   * the first frame. With selfDraw img is the frame itself, as it is when the
   * chain is empty.
   */
  method Redraw(frame: Frame, lst: Frame?, img: Image, selfDraw: bool)
    requires lst != frame && frame.rect == img.rect
    modifies frame`pix
    ensures frame.State() == Finish(old(frame.State()), img, if lst == null then None else Some(lst.State()), selfDraw)
  {
    var top := if selfDraw then Itself else Picture(img);
    if lst != null {
      frame.Draw(Other(lst.State()), Src);
      frame.Draw(top, Over);
    } else {
      frame.Draw(top, Src);
    }
  }

  /**
   * One iteration of the loop: the chain runs on the frame, the frame takes the
   * bounds of the result and is redrawn against lst, the frame finished before it.
   */
  method ProcessFrame(frame: Frame, lst: Frame?, chain: seq<Processor>, lib: Lib, ops: Ops,
                      ghost origs: seq<FrameState>, ghost i: nat, ghost flags0: Flags, ghost prev: Option<FrameState>,
                      ghost outs: seq<Image>, ghost done: seq<FrameState>)
    returns (img: Image, ghost state: FrameState, ghost flags: Flags)
    requires lst != frame
    requires i < |origs| && origs[i] == frame.State() && flags0 == FlagsOf(Rounds(chain))
    requires prev == if lst == null then None else Some(lst.State())
    modifies frame, Rounds(chain)`antialias
    ensures state == frame.State() && flags == FlagsOf(Rounds(chain))
    ensures Loop(chain, origs, i, flags0, prev, outs, done, |chain| == 0, lib, ops) ==
      Loop(chain, origs, i + 1, flags, Some(state), outs + [img], done + [state], |chain| == 0, lib, ops)
  {
    img := RunChain(chain, frame.State().AsImage(ops), lib);
    frame.rect := img.rect;
    Redraw(frame, lst, img, |chain| == 0);
    state, flags := frame.State(), FlagsOf(Rounds(chain));
    LoopStepTo(chain, origs, i, flags0, prev, outs, done, |chain| == 0, lib, ops, img, flags);
  }

  /** No frame object occurs twice in frames. */
  ghost predicate Distinct(frames: seq<Frame>)
    decreases |frames|
  {
    frames == [] || (frames[0] !in frames[1..] && Distinct(frames[1..]))
  }

  lemma {:induction false} DistinctAt(frames: seq<Frame>, j: nat, k: nat)
    requires Distinct(frames) && j < |frames| && k < |frames| && j != k
    ensures frames[j] != frames[k]
    decreases |frames|
  {
    if j > 0 && k > 0 {
      DistinctAt(frames[1..], j - 1, k - 1);
    } else if j == 0 {
      assert frames[k] == frames[1..][k - 1];
    } else {
      assert frames[j] == frames[1..][j - 1];
    }
  }

  lemma DistinctFromOthers(frames: seq<Frame>, i: nat)
    requires Distinct(frames) && i < |frames|
    ensures forall k :: 0 <= k < |frames| && k != i ==> frames[k] != frames[i]
  {
    forall k | 0 <= k < |frames| && k != i
      ensures frames[k] != frames[i]
    {
      DistinctAt(frames, k, i);
    }
  }

  /** The loop of ProcessAnimation over the frames, in order, threading lst. */
  method ProcessFrames(frames: seq<Frame>, chain: seq<Processor>, lib: Lib, ops: Ops, ghost origs: seq<FrameState>, ghost flags0: Flags)
    returns (ghost run: Run)
    requires Distinct(frames)
    requires |origs| == |frames| && forall k :: 0 <= k < |frames| ==> frames[k].State() == origs[k]
    requires flags0 == FlagsOf(Rounds(chain))
    modifies frames, Rounds(chain)`antialias
    ensures run == ProcessedFrames(chain, origs, flags0, |chain| == 0, lib, ops)
    ensures forall k :: 0 <= k < |frames| ==> frames[k].State() == run.frames[k]
    ensures FlagsOf(Rounds(chain)) == run.flags
  {
    run := ProcessedFrames(chain, origs, flags0, |chain| == 0, lib, ops);
    ghost var outs, done, flags, prev := [], [], flags0, None;
    var lst: Frame? := null;
    var i := 0;
    while i < |frames|
      invariant 0 <= i <= |frames| && |done| == i
      invariant flags == FlagsOf(Rounds(chain))
      invariant lst == if i == 0 then null else frames[i - 1]
      invariant prev == if lst == null then None else Some(lst.State())
      invariant forall k :: 0 <= k < i ==> frames[k].State() == done[k]
      invariant forall k :: i <= k < |frames| ==> frames[k].State() == origs[k]
      invariant run == Loop(chain, origs, i, flags, prev, outs, done, |chain| == 0, lib, ops)
    {
      DistinctFromOthers(frames, i);
      var img; ghost var state;
      img, state, flags := ProcessFrame(frames[i], lst, chain, lib, ops, origs, i, flags, prev, outs, done);
      lst, prev := frames[i], Some(state);
      outs, done := outs + [img], done + [state];
      i := i + 1;
    }
  }

  twostate lemma FlagsFramed(rounds: set<RoundProcessor>)
    requires forall r :: r in rounds ==> old(r.antialias) == r.antialias
    ensures FlagsOf(rounds) == old(FlagsOf(rounds))
  {}

  twostate lemma StatesFramed(frames: seq<Frame>)
    requires forall k :: 0 <= k < |frames| ==> unchanged(frames[k])
    ensures States(frames) == old(States(frames))
  {}

  /** ProcessAnimation, with the decoder's outcome as its input. */
  method ProcessAnimation(decoded: Option<Gif>, chain: seq<Processor>, lib: Lib, ops: Ops) returns (r: Result<Gif, Error>)
    requires decoded.Some? ==> Distinct(decoded.value.frames)
    modifies if decoded.Some? then {decoded.value} else {}
    modifies if decoded.Some? then decoded.value.frames else []
    modifies Rounds(chain)`antialias
    ensures decoded.None? ==> r == Failure(DecodeFailed) && unchanged(Rounds(chain))
    ensures decoded.Some? && |decoded.value.frames| == 0 ==>
      r == Failure(NoFrames) && unchanged(decoded.value) && unchanged(Rounds(chain))
    ensures decoded.Some? && |decoded.value.frames| != 0 ==>
      var gif := decoded.value;
      var run := ProcessedFrames(chain, old(States(gif.frames)), old(FlagsOf(Rounds(chain))), |chain| == 0, lib, ops);
      r == Success(gif) && States(gif.frames) == run.frames && FlagsOf(Rounds(chain)) == run.flags &&
      gif.width == gif.frames[0].rect.Dx() && gif.height == gif.frames[0].rect.Dy()
  {
    if decoded.None? {
      return Failure(DecodeFailed);
    }
    var gif := decoded.value;
    if |gif.frames| == 0 {
      return Failure(NoFrames);
    }
    ghost var run := ProcessFrames(gif.frames, chain, lib, ops, States(gif.frames), FlagsOf(Rounds(chain)));
    assert States(gif.frames) == run.frames;
    label processed:
    var bounds := gif.frames[0].rect;
    gif.width := bounds.Dx();
    gif.height := bounds.Dy();
    FlagsFramed@processed(Rounds(chain));
    StatesFramed@processed(gif.frames);
    r := Success(gif);
  }
}
