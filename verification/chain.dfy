/**
 * Processor chains: Prepend, the left-to-right fold that Process and
 * ProcessAnimation run over an image, and the still-image pipeline Process.
 */
module Chain {
  import opened Wrappers
  import opened Images
  import opened Processors

  type Positive = x: int | 0 < x witness 1

  /** A Processor: one of the two the package defines, or one of the caller's own. */
  datatype Processor =
    | Resize(maxW: Positive, maxH: Positive)
    | Round(round: RoundProcessor)
    | Custom(id: nat)

  /** The ways the pipelines fail. */
  datatype Error = DecodeFailed | NoFrames

  /** Prepend(p1, pN): a new chain that runs p1 and then pN. */
  function Prepend(p1: Processor, pN: seq<Processor>): (r: seq<Processor>)
    ensures |r| == |pN| + 1 && r[0] == p1 && r[1..] == pN
  {
    [p1] + pN
  }

  /** The Round processors a chain holds. */
  function Rounds(chain: seq<Processor>): (s: set<RoundProcessor>)
    ensures forall i :: 0 <= i < |chain| && chain[i].Round? ==> chain[i].round in s
  {
    set i | 0 <= i < |chain| && chain[i].Round? :: chain[i].round
  }

  lemma RoundsOfSuffix(chain: seq<Processor>, k: nat)
    requires k <= |chain|
    ensures Rounds(chain[k..]) <= Rounds(chain)
  {
  }

  /** The captured antialias flag of each Round processor. */
  type Flags = map<RoundProcessor, bool>

  ghost function FlagsOf(rounds: set<RoundProcessor>): (f: Flags)
    reads rounds`antialias
    ensures f.Keys == rounds
  {
    map r | r in rounds :: r.antialias
  }

  /** One processor applied to img, with the flags it reads and leaves. */
  function Step(p: Processor, img: Image, flags: Flags, lib: Lib): (r: (Image, Flags))
    requires p.Round? ==> p.round in flags
    ensures r.1.Keys == flags.Keys
    ensures !p.Round? ==> r.1 == flags
  {
    match p
    case Resize(maxW, maxH) => (ResizeApply(maxW, maxH, img, lib), flags)
    case Round(rp) => (Rounded(flags[rp], img, lib), flags[rp := NextAntialias(flags[rp], img)])
    case Custom(id) => (lib.custom(id, img), flags)
  }

  /** The chain run over img: the processors in list order, each on the previous one's output. */
  function Fold(chain: seq<Processor>, img: Image, flags: Flags, lib: Lib): (r: (Image, Flags))
    requires Rounds(chain) <= flags.Keys
    ensures r.1.Keys == flags.Keys
    decreases |chain|, 1
  {
    if chain == [] then (img, flags) else FoldFirst(chain, img, flags, lib)
  }

  /** A chain that is not empty: its first processor, then the rest of the chain. */
  function FoldFirst(chain: seq<Processor>, img: Image, flags: Flags, lib: Lib): (r: (Image, Flags))
    requires Rounds(chain) <= flags.Keys && chain != []
    ensures r.1.Keys == flags.Keys
    decreases |chain|, 0
  {
    RoundsOfSuffix(chain, 1);
    var (next, flags') := Step(chain[0], img, flags, lib);
    Fold(chain[1..], next, flags', lib)
  }

  /** The processors run in list order: a concatenated chain is the second run on the first's result. */
  lemma {:induction false} FoldAppend(a: seq<Processor>, b: seq<Processor>, img: Image, flags: Flags, lib: Lib)
    requires Rounds(a + b) <= flags.Keys
    ensures Rounds(a) <= flags.Keys && Rounds(b) <= flags.Keys
    ensures var (mid, flags') := Fold(a, img, flags, lib);
      Fold(a + b, img, flags, lib) == Fold(b, mid, flags', lib)
    decreases |a|
  {
    forall r | r in Rounds(a) ensures r in Rounds(a + b) {
      var i :| 0 <= i < |a| && a[i].Round? && a[i].round == r;
      assert (a + b)[i] == a[i];
    }
    assert (a + b)[|a|..] == b;
    RoundsOfSuffix(a + b, |a|);
    if a != [] {
      assert (a + b)[1..] == a[1..] + b;
      RoundsOfSuffix(a + b, 1);
      var (next, flags1) := Step(a[0], img, flags, lib);
      FoldAppend(a[1..], b, next, flags1, lib);
    }
  }

  /** A prepended processor runs first, then the rest of the chain. */
  lemma FoldPrepend(p: Processor, chain: seq<Processor>, img: Image, flags: Flags, lib: Lib)
    requires Rounds(Prepend(p, chain)) <= flags.Keys
    ensures (p.Round? ==> p.round in flags) && Rounds(chain) <= flags.Keys
    ensures var (next, flags') := Step(p, img, flags, lib);
      Fold(Prepend(p, chain), img, flags, lib) == Fold(chain, next, flags', lib)
  {
  }

  /** A flag that is off stays off, whatever the chain is given. */
  lemma {:induction false} FoldNeverReenables(chain: seq<Processor>, img: Image, flags: Flags, lib: Lib, r: RoundProcessor)
    requires Rounds(chain) <= flags.Keys && r in flags && !flags[r]
    ensures !Fold(chain, img, flags, lib).1[r]
    decreases |chain|
  {
    if chain != [] {
      RoundsOfSuffix(chain, 1);
      var (next, flags') := Step(chain[0], img, flags, lib);
      FoldNeverReenables(chain[1..], next, flags', lib, r);
    }
  }

  /** A Round processor at the head of a chain that is given a paletted image is switched off for good. */
  lemma PalettedSwitchesHeadRoundOff(chain: seq<Processor>, img: Image, flags: Flags, lib: Lib)
    requires Rounds(chain) <= flags.Keys && chain != [] && chain[0].Round? && img.Paletted()
    ensures !Fold(chain, img, flags, lib).1[chain[0].round]
  {
    RoundsOfSuffix(chain, 1);
    var (next, flags') := Step(chain[0], img, flags, lib);
    FoldNeverReenables(chain[1..], next, flags', lib, chain[0].round);
  }

  /** Runs the chain over img, calling each processor in turn. */
  method RunChain(chain: seq<Processor>, img: Image, lib: Lib) returns (out: Image)
    modifies Rounds(chain)`antialias
    ensures (out, FlagsOf(Rounds(chain))) == Fold(chain, img, old(FlagsOf(Rounds(chain))), lib)
  {
    out := img;
    var i := 0;
    while i < |chain|
      invariant 0 <= i <= |chain|
      invariant Rounds(chain[i..]) <= Rounds(chain)
      invariant Fold(chain, img, old(FlagsOf(Rounds(chain))), lib) == Fold(chain[i..], out, FlagsOf(Rounds(chain)), lib)
    {
      ghost var flags := FlagsOf(Rounds(chain));
      ghost var before := out;
      RoundsOfSuffix(chain, i + 1);
      assert chain[i..][1..] == chain[i + 1..];
      match chain[i] {
        case Resize(maxW, maxH) =>
          out := ResizeApply(maxW, maxH, out, lib);
        case Round(rp) =>
          out := rp.Apply(out, lib);
          assert FlagsOf(Rounds(chain)) == flags[rp := NextAntialias(flags[rp], before)];
        case Custom(id) =>
          out := lib.custom(id, out);
      }
      i := i + 1;
    }
  }

  /** Process, with the decoder's outcome as its input: decode failure, or the chain run over the image. */
  method Process(decoded: Option<Image>, chain: seq<Processor>, lib: Lib) returns (r: Result<Image, Error>)
    modifies Rounds(chain)`antialias
    ensures decoded.None? ==> r == Failure(DecodeFailed) && unchanged(Rounds(chain))
    ensures decoded.Some? ==>
      r.Success? && (r.value, FlagsOf(Rounds(chain))) == Fold(chain, decoded.value, old(FlagsOf(Rounds(chain))), lib)
  {
    if decoded.None? {
      return Failure(DecodeFailed);
    }
    var img := RunChain(chain, decoded.value, lib);
    r := Success(img);
  }
}
