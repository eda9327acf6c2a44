/** The offline GTCRN denoiser's driver: whether to resample, how one spectral frame
    is packed for the network and unpacked from it, and the frame loop that threads
    the recurrent caches from each frame to the next. The resampler, the STFT, the
    inverse STFT and the network step are function parameters, and samples are of a
    generic type, so no arithmetic on them is modelled. */
module GtcrnImpl {
  import opened Common
  import MetaData
  import GtcrnModel

  type Mat<T> = GtcrnModel.Mat<T>
  type States<T> = GtcrnModel.States<T>

  /** The STFT's result: a frame count, then the real and the imaginary parts of
      all frames, frame after frame. */
  datatype StftResult<T> = StftResult(numFrames: Int32, re: seq<T>, im: seq<T>)

  /** One frame's one-sided spectrum. */
  datatype Frame<T> = Frame(re: seq<T>, im: seq<T>)

  /** The analysis window: the library's own for the configured type, or the
      element-wise square root of a named library window of the given length. */
  datatype WindowSpec = LibraryWindow | SqrtOfWindow(name: string, length: int)

  datatype StftConfig = StftConfig(nFft: int, hopLength: int, winLength: int, windowType: string, window: WindowSpec)

  /** The STFT configuration: the framing parameters copied from the metadata, and
      for the "hann_sqrt" type the square root of a Hann window of the window length. */
  function StftConfigFor(meta: MetaData.GtcrnMetaData): (c: StftConfig)
    ensures c.nFft == meta.nFft && c.hopLength == meta.hopLength && c.winLength == meta.windowLength
    ensures c.windowType == meta.windowType
    ensures c.window.SqrtOfWindow? <==> meta.windowType == "hann_sqrt"
    ensures c.window.SqrtOfWindow? ==> c.window == SqrtOfWindow("hann", meta.windowLength)
  {
    var window := if meta.windowType == "hann_sqrt" then SqrtOfWindow("hann", meta.windowLength) else LibraryWindow;
    StftConfig(meta.nFft, meta.hopLength, meta.windowLength, meta.windowType, window)
  }

  /** The arguments a resampler is built with. The cutoff is kept as an exact real;
      `Run` computes it in floating point. */
  datatype ResamplerConfig = ResamplerConfig(inputRate: int, outputRate: int, lowpassCutoff: real, filterWidth: int)

  /** The samples handed to the STFT, and the resampler built on the way, if any. */
  datatype Prepared<T> = Prepared(samples: seq<T>, resampler: Option<ResamplerConfig>)

  function Min(a: int, b: int): int {
    if a < b then a else b
  }

  /** The resampling decision. Input at the model's rate passes through untouched
      and no resampler is built; any other rate goes through a resampler from the
      input rate to the model's rate, with filter width 6 and a cutoff just under
      half the lower of the two rates, and its output replaces the samples. */
  function Prepare<T>(samples: seq<T>, sampleRate: Int32, meta: MetaData.GtcrnMetaData,
                      resample: (ResamplerConfig, seq<T>) -> seq<T>): (p: Prepared<T>)
    ensures p.resampler.None? <==> sampleRate == meta.sampleRate
    ensures p.resampler.None? ==> p.samples == samples
    ensures p.resampler.Some? ==>
              && p.resampler.value.inputRate == sampleRate
              && p.resampler.value.outputRate == meta.sampleRate
              && p.resampler.value.filterWidth == 6
              && 200.0 * p.resampler.value.lowpassCutoff == 99.0 * (if sampleRate <= meta.sampleRate then sampleRate else meta.sampleRate) as real
              && p.samples == resample(p.resampler.value, samples)
    ensures p.resampler.Some? && sampleRate > 0 && meta.sampleRate > 0 ==>
              && 0.0 < p.resampler.value.lowpassCutoff
              && 2.0 * p.resampler.value.lowpassCutoff < sampleRate as real
              && 2.0 * p.resampler.value.lowpassCutoff < meta.sampleRate as real
  {
    if sampleRate == meta.sampleRate then Prepared(samples, None)
    else
      var minFreq := Min(sampleRate, meta.sampleRate) as real;
      var config := ResamplerConfig(sampleRate, meta.sampleRate, 0.99 * 0.5 * minFreq, 6);
      Prepared(resample(config, samples), Some(config))
  }

  /** Where frame `frameIndex` starts in either part of the spectrum: that many
      frames of `bins` values each come before it. */
  function Offset(frameIndex: nat, bins: nat): nat {
    if frameIndex == 0 then 0 else Offset(frameIndex - 1, bins) + bins
  }

  /** The offset is the product `Process` computes, `frame_index * (n_fft / 2 + 1)`. */
  lemma {:induction false} OffsetIsProduct(frameIndex: nat, bins: nat)
    ensures Offset(frameIndex, bins) == frameIndex * bins
  {
    if frameIndex > 0 {
      OffsetIsProduct(frameIndex - 1, bins);
    }
  }

  /** Later frames start no earlier. */
  lemma {:induction false} OffsetMono(a: nat, b: nat, bins: nat)
    requires a <= b
    ensures Offset(a, bins) <= Offset(b, bins)
    decreases b - a
  {
    if a < b {
      OffsetMono(a, b - 1, bins);
    }
  }

  /** Frame `frameIndex` lies inside both parts of the spectrum. */
  predicate FrameInBounds<T>(stft: StftResult<T>, frameIndex: nat, bins: nat) {
    Offset(frameIndex, bins) + bins <= |stft.re| && Offset(frameIndex, bins) + bins <= |stft.im|
  }

  /** Bin i's real part at position 2i, its imaginary part at 2i+1, for the `bins`
      values starting at `offset`. */
  function Interleave<T>(re: seq<T>, im: seq<T>, offset: nat, bins: nat): (x: seq<T>)
    requires offset + bins <= |re| && offset + bins <= |im|
    ensures |x| == 2 * bins
    ensures forall i :: 0 <= i < bins ==> x[2 * i] == re[offset + i] && x[2 * i + 1] == im[offset + i]
  {
    if bins == 0 then []
    else Interleave(re, im, offset, bins - 1) + [re[offset + bins - 1], im[offset + bins - 1]]
  }

  /** The network input for one frame: a (w, h, c) = (2, 1, bins) tensor holding the
      frame's bins interleaved, read from that frame's slice of the spectrum only. */
  function PackedInput<T>(stft: StftResult<T>, frameIndex: nat, bins: nat): (x: Mat<T>)
    requires FrameInBounds(stft, frameIndex, bins)
    ensures x.Valid() && x.dims == 3 && x.w == 2 && x.h == 1 && x.c == bins
    ensures forall i :: 0 <= i < bins ==>
              && x.data[2 * i] == stft.re[Offset(frameIndex, bins) + i]
              && x.data[2 * i + 1] == stft.im[Offset(frameIndex, bins) + i]
  {
    GtcrnModel.Mat(3, 2, 1, bins, Interleave(stft.re, stft.im, Offset(frameIndex, bins), bins))
  }

  /** The packing loop as written: one pass over the bins, two values per bin, its
      counter ending at twice the bin count. */
  method PackFrame<T>(stft: StftResult<T>, frameIndex: nat, bins: nat) returns (x: seq<T>, k: nat)
    requires FrameInBounds(stft, frameIndex, bins)
    ensures k == 2 * bins && |x| == k
    ensures forall i :: 0 <= i < bins ==>
              x[2 * i] == stft.re[Offset(frameIndex, bins) + i] && x[2 * i + 1] == stft.im[Offset(frameIndex, bins) + i]
    ensures x == PackedInput(stft, frameIndex, bins).data
  {
    var offset := frameIndex * bins;
    OffsetIsProduct(frameIndex, bins);
    x := [];
    k := 0;
    var i := 0;
    while i < bins
      invariant 0 <= i <= bins
      invariant k == 2 * i
      invariant x == Interleave(stft.re, stft.im, offset, i)
    {
      x := x + [stft.re[offset + i], stft.im[offset + i]];
      k := k + 2;
      i := i + 1;
    }
  }

  /** Row `y` of a tensor: `w` consecutive elements from position `y * w`. */
  function Row<T>(m: Mat<T>, y: nat): seq<T>
    requires (y + 1) * m.w <= |m.data|
  {
    m.data[y * m.w..(y + 1) * m.w]
  }

  /** The network's output holds at least two rows of one value per bin. */
  predicate OutputFits<T>(out: Mat<T>, bins: nat) {
    out.w == bins && |out.data| >= 2 * bins
  }

  /** Unpacking: the real parts are the output's first row, the imaginary parts the
      row after it, each exactly one value per bin. */
  function Unpack<T>(out: Mat<T>, bins: nat): (f: Frame<T>)
    requires OutputFits(out, bins)
    ensures |f.re| == bins && |f.im| == bins
    ensures f.re == Row(out, 0) && f.im == Row(out, 1)
  {
    Frame(out.data[..bins], out.data[bins..2 * bins])
  }

  /** The values at the even positions 0, 2, 4, ... of an interleaved buffer. */
  function Evens<T>(x: seq<T>, bins: nat): (e: seq<T>)
    requires |x| == 2 * bins
    ensures |e| == bins && forall i :: 0 <= i < bins ==> e[i] == x[2 * i]
  {
    seq(bins, i requires 0 <= i < bins => x[2 * i])
  }

  /** The values at the odd positions 1, 3, 5, ... of an interleaved buffer. */
  function Odds<T>(x: seq<T>, bins: nat): (o: seq<T>)
    requires |x| == 2 * bins
    ensures |o| == bins && forall i :: 0 <= i < bins ==> o[i] == x[2 * i + 1]
  {
    seq(bins, i requires 0 <= i < bins => x[2 * i + 1])
  }

  /** The planar layout of a packed frame: all real parts as row 0, all imaginary
      parts as row 1. */
  function Planar<T>(x: seq<T>, bins: nat): Mat<T>
    requires |x| == 2 * bins
  {
    GtcrnModel.Mat(2, bins, 2, 1, Evens(x, bins) + Odds(x, bins))
  }

  /** Packing and unpacking agree: a network that hands back its input in the planar
      layout returns exactly the frame it was given. */
  lemma UnpackPlanarPacked<T>(stft: StftResult<T>, frameIndex: nat, bins: nat)
    requires FrameInBounds(stft, frameIndex, bins)
    ensures var lo := Offset(frameIndex, bins);
            Unpack(Planar(PackedInput(stft, frameIndex, bins).data, bins), bins)
            == Frame(stft.re[lo..lo + bins], stft.im[lo..lo + bins])
  {
    var x := PackedInput(stft, frameIndex, bins).data;
    var e := Evens(x, bins);
    var o := Odds(x, bins);
    assert (e + o)[..bins] == e;
    assert (e + o)[bins..2 * bins] == o;
    PackedParts(stft, frameIndex, bins);
  }

  /** The even positions of a packed frame are its real parts, the odd ones its
      imaginary parts. */
  lemma PackedParts<T>(stft: StftResult<T>, frameIndex: nat, bins: nat)
    requires FrameInBounds(stft, frameIndex, bins)
    ensures var lo := Offset(frameIndex, bins);
            var x := PackedInput(stft, frameIndex, bins).data;
            Evens(x, bins) == stft.re[lo..lo + bins] && Odds(x, bins) == stft.im[lo..lo + bins]
  {
    var lo := Offset(frameIndex, bins);
    var x := PackedInput(stft, frameIndex, bins).data;
    assert Evens(x, bins) == stft.re[lo..lo + bins];
    assert Odds(x, bins) == stft.im[lo..lo + bins];
  }

  /** One network call: packed frame and caches in, output tensor and next caches out. */
  type Step<!T> = (Mat<T>, States<T>) -> (Mat<T>, States<T>)

  /** The shape `Process` gives every frame it feeds the network: (2, 1, bins). */
  predicate FrameShaped<T>(x: Mat<T>, bins: nat) {
    x.w == 2 && x.h == 1 && x.c == bins
  }

  /** Fed a frame of the packed shape, the network answers with one row of real
      and one row of imaginary parts per bin. */
  ghost predicate WellShapedStep<T(!new)>(step: Step<T>, bins: nat) {
    forall x, s :: FrameShaped(x, bins) ==> OutputFits(step(x, s).0, bins)
  }

  /** One frame: pack it, run the network once with the given caches, unpack the
      output, and pass the next caches on. */
  function Process<T(!new)>(step: Step<T>, stft: StftResult<T>, frameIndex: nat, states: States<T>, bins: nat): (r: (Frame<T>, States<T>))
    requires FrameInBounds(stft, frameIndex, bins)
    requires WellShapedStep(step, bins)
    ensures |r.0.re| == bins && |r.0.im| == bins
    ensures r.0.re == Row(step(PackedInput(stft, frameIndex, bins), states).0, 0)
    ensures r.0.im == Row(step(PackedInput(stft, frameIndex, bins), states).0, 1)
    ensures r.1 == step(PackedInput(stft, frameIndex, bins), states).1
  {
    var out := step(PackedInput(stft, frameIndex, bins), states);
    (Unpack(out.0, bins), out.1)
  }

  /** Interleaving reads only the `bins` values from each offset: equal slices give
      equal interleavings. */
  lemma {:induction false} InterleaveReadsSlices<T>(re1: seq<T>, im1: seq<T>, o1: nat, re2: seq<T>, im2: seq<T>, o2: nat, bins: nat)
    requires o1 + bins <= |re1| && o1 + bins <= |im1| && o2 + bins <= |re2| && o2 + bins <= |im2|
    requires re1[o1..o1 + bins] == re2[o2..o2 + bins] && im1[o1..o1 + bins] == im2[o2..o2 + bins]
    ensures Interleave(re1, im1, o1, bins) == Interleave(re2, im2, o2, bins)
  {
    if bins > 0 {
      var k := bins - 1;
      assert re1[o1..o1 + k] == re1[o1..o1 + bins][..k];
      assert re2[o2..o2 + k] == re2[o2..o2 + bins][..k];
      assert im1[o1..o1 + k] == im1[o1..o1 + bins][..k];
      assert im2[o2..o2 + k] == im2[o2..o2 + bins][..k];
      InterleaveReadsSlices(re1, im1, o1, re2, im2, o2, k);
      assert re1[o1 + k] == re1[o1..o1 + bins][k];
      assert re2[o2 + k] == re2[o2..o2 + bins][k];
      assert im1[o1 + k] == im1[o1..o1 + bins][k];
      assert im2[o2 + k] == im2[o2..o2 + bins][k];
    }
  }

  /** A frame's result depends on the spectrum only through that frame's slice. */
  lemma ProcessReadsOnlyItsFrame<T(!new)>(step: Step<T>, a: StftResult<T>, b: StftResult<T>, frameIndex: nat, states: States<T>, bins: nat)
    requires FrameInBounds(a, frameIndex, bins) && FrameInBounds(b, frameIndex, bins)
    requires WellShapedStep(step, bins)
    requires var lo := Offset(frameIndex, bins);
             a.re[lo..lo + bins] == b.re[lo..lo + bins] && a.im[lo..lo + bins] == b.im[lo..lo + bins]
    ensures Process(step, a, frameIndex, states, bins) == Process(step, b, frameIndex, states, bins)
  {
    var lo := Offset(frameIndex, bins);
    InterleaveReadsSlices(a.re, a.im, lo, b.re, b.im, lo, bins);
  }

  /** The frames the loop visits: none when the count is negative. */
  function FrameCount<T>(stft: StftResult<T>): nat {
    if stft.numFrames < 0 then 0 else stft.numFrames
  }

  /** Every frame the loop visits lies inside both parts of the spectrum. */
  predicate FramesFit<T>(stft: StftResult<T>, bins: nat) {
    forall i :: 0 <= i < FrameCount(stft) ==> FrameInBounds(stft, i, bins)
  }

  /** The per-frame bounds are the single bound "frame count times bins fits". */
  lemma FramesFitIff<T>(stft: StftResult<T>, bins: nat)
    ensures FramesFit(stft, bins) <==> (FrameCount(stft) * bins <= |stft.re| && FrameCount(stft) * bins <= |stft.im|)
  {
    var n := FrameCount(stft);
    OffsetIsProduct(n, bins);
    if n * bins <= |stft.re| && n * bins <= |stft.im| {
      forall i | 0 <= i < n
        ensures FrameInBounds(stft, i, bins)
      {
        OffsetMono(i + 1, n, bins);
      }
    }
    if FramesFit(stft, bins) && n > 0 {
      assert FrameInBounds(stft, n - 1, bins);
    }
  }

  /** One model call as the loop makes it: which frame, with which caches, and the
      frame and caches it gave back. */
  datatype Call<T> = Call(frameIndex: nat, states: States<T>, output: Frame<T>, next: States<T>)

  /** The loop's state after some frames: the enhanced real and imaginary parts so
      far and the caches to use next, together with the record of every model call
      made so far. */
  datatype Progress<T> = Progress(re: seq<T>, im: seq<T>, states: States<T>, calls: seq<Call<T>>)

  /** Concatenation of pieces in order. */
  function Concat<T>(pieces: seq<seq<T>>): seq<T> {
    if |pieces| == 0 then [] else Concat(pieces[..|pieces| - 1]) + pieces[|pieces| - 1]
  }

  /** The real parts the calls produced, call by call. */
  function RealParts<T>(calls: seq<Call<T>>): (r: seq<seq<T>>)
    ensures |r| == |calls| && forall i :: 0 <= i < |calls| ==> r[i] == calls[i].output.re
  {
    seq(|calls|, i requires 0 <= i < |calls| => calls[i].output.re)
  }

  /** The imaginary parts the calls produced, call by call. */
  function ImagParts<T>(calls: seq<Call<T>>): (r: seq<seq<T>>)
    ensures |r| == |calls| && forall i :: 0 <= i < |calls| ==> r[i] == calls[i].output.im
  {
    seq(|calls|, i requires 0 <= i < |calls| => calls[i].output.im)
  }

  /** What the loop does with one frame: the frame's index and the current caches
      in, the enhanced frame and the next caches out. */
  type FrameStep<!T> = (nat, States<T>) --> (Frame<T>, States<T>)

  /** The frame step can be taken on each of the first `n` frames, whatever the
      caches. */
  ghost predicate Defined<T(!new)>(f: FrameStep<T>, n: nat) {
    forall i, s :: 0 <= i < n ==> f.requires(i, s)
  }

  /** The model calls the first `n` frames make, in order from `init`: call i is on
      frame i, call 0 gets `init` and call i+1 the caches call i returned. */
  function Calls<T(!new)>(f: FrameStep<T>, init: States<T>, n: nat): (calls: seq<Call<T>>)
    requires Defined(f, n)
    ensures |calls| == n
    ensures forall i :: 0 <= i < n ==> calls[i].frameIndex == i
    ensures forall i :: 0 <= i < n ==> (calls[i].output, calls[i].next) == f(i, calls[i].states)
    ensures n > 0 ==> calls[0].states == init
    ensures forall i :: 0 < i < n ==> calls[i].states == calls[i - 1].next
    decreases n
  {
    if n == 0 then []
    else
      var prev := Calls(f, init, n - 1);
      var states := if n == 1 then init else prev[n - 2].next;
      var r := f(n - 1, states);
      prev + [Call(n - 1, states, r.0, r.1)]
  }

  /** The caches left after the given calls: `init` when there were none, else
      those the last call returned. */
  function After<T>(init: States<T>, calls: seq<Call<T>>): States<T> {
    if |calls| == 0 then init else calls[|calls| - 1].next
  }

  /** The first `n` frames, processed in order from `init`. Frame i is the i-th call;
      frame 0 gets `init`, frame i+1 exactly the caches call i returned, and the
      caches left over are those of the last call. The enhanced parts are the
      per-call results concatenated in call order. */
  function Fold<T(!new)>(f: FrameStep<T>, init: States<T>, n: nat): (p: Progress<T>)
    requires Defined(f, n)
    ensures |p.calls| == n
    ensures forall i :: 0 <= i < n ==> p.calls[i].frameIndex == i
    ensures forall i :: 0 <= i < n ==> (p.calls[i].output, p.calls[i].next) == f(i, p.calls[i].states)
    ensures n == 0 ==> p.states == init
    ensures n > 0 ==> p.calls[0].states == init && p.states == p.calls[n - 1].next
    ensures forall i :: 0 < i < n ==> p.calls[i].states == p.calls[i - 1].next
    ensures p.re == Concat(RealParts(p.calls)) && p.im == Concat(ImagParts(p.calls))
  {
    var calls := Calls(f, init, n);
    Progress(Concat(RealParts(calls)), Concat(ImagParts(calls)), After(init, calls), calls)
  }

  /** Recording one more call appends its output to both concatenated parts. */
  lemma PartsSnoc<T>(calls: seq<Call<T>>, c: Call<T>)
    ensures Concat(RealParts(calls + [c])) == Concat(RealParts(calls)) + c.output.re
    ensures Concat(ImagParts(calls + [c])) == Concat(ImagParts(calls)) + c.output.im
  {
    assert RealParts(calls + [c])[..|calls|] == RealParts(calls);
    assert ImagParts(calls + [c])[..|calls|] == ImagParts(calls);
  }

  /** One more frame: the fold over n+1 frames extends the fold over n by exactly
      one call, made with the caches the first n frames left. */
  lemma FoldNext<T(!new)>(f: FrameStep<T>, init: States<T>, n: nat)
    requires Defined(f, n + 1)
    ensures var p := Fold(f, init, n);
            var r := f(n, p.states);
            && Fold(f, init, n + 1).re == p.re + r.0.re
            && Fold(f, init, n + 1).im == p.im + r.0.im
            && Fold(f, init, n + 1).states == r.1
  {
    var p := Fold(f, init, n);
    var r := f(n, p.states);
    assert Calls(f, init, n + 1) == p.calls + [Call(n, p.states, r.0, r.1)];
    PartsSnoc(p.calls, Call(n, p.states, r.0, r.1));
  }

  /** Pieces of equal length `bins` concatenate to `Offset(|pieces|, bins)` values. */
  lemma {:induction false} ConcatUniformLength<T>(pieces: seq<seq<T>>, bins: nat)
    requires forall i :: 0 <= i < |pieces| ==> |pieces[i]| == bins
    ensures |Concat(pieces)| == Offset(|pieces|, bins)
    decreases |pieces|
  {
    if |pieces| > 0 {
      ConcatUniformLength(pieces[..|pieces| - 1], bins);
    }
  }

  /** In a concatenation of pieces of equal length `bins`, piece i is the slice
      starting at `Offset(i, bins)`. */
  lemma {:induction false} ConcatUniformAt<T>(pieces: seq<seq<T>>, bins: nat, i: nat)
    requires forall k :: 0 <= k < |pieces| ==> |pieces[k]| == bins
    requires i < |pieces|
    ensures Offset(i, bins) + bins <= |Concat(pieces)|
    ensures Concat(pieces)[Offset(i, bins)..Offset(i, bins) + bins] == pieces[i]
    decreases |pieces|
  {
    var m := |pieces| - 1;
    var front := pieces[..m];
    ConcatUniformLength(front, bins);
    assert Concat(pieces) == Concat(front) + pieces[m];
    if i < m {
      ConcatUniformAt(front, bins, i);
      OffsetMono(i + 1, m, bins);
      assert front[i] == pieces[i];
    }
  }

  /** Both facts for every piece. */
  lemma ConcatUniform<T>(pieces: seq<seq<T>>, bins: nat)
    requires forall i :: 0 <= i < |pieces| ==> |pieces[i]| == bins
    ensures |Concat(pieces)| == Offset(|pieces|, bins)
    ensures forall i: nat :: i < |pieces| ==>
              Offset(i, bins) + bins <= |Concat(pieces)| && Concat(pieces)[Offset(i, bins)..Offset(i, bins) + bins] == pieces[i]
  {
    ConcatUniformLength(pieces, bins);
    forall i: nat | i < |pieces|
      ensures Offset(i, bins) + bins <= |Concat(pieces)| && Concat(pieces)[Offset(i, bins)..Offset(i, bins) + bins] == pieces[i]
    {
      ConcatUniformAt(pieces, bins, i);
    }
  }

  /** Every frame step answers with exactly `bins` real and `bins` imaginary parts. */
  ghost predicate Uniform<T(!new)>(f: FrameStep<T>, n: nat, bins: nat) {
    Defined(f, n) && forall i, s :: 0 <= i < n ==> |f(i, s).0.re| == bins && |f(i, s).0.im| == bins
  }

  /** The denoiser's frame step: `Process` on frame i of the spectrum. */
  function FrameStepOf<T(!new)>(step: Step<T>, stft: StftResult<T>, bins: nat): (f: FrameStep<T>)
    ensures forall i, s :: FrameInBounds(stft, i, bins) && WellShapedStep(step, bins) ==>
              f.requires(i, s) && f(i, s) == Process(step, stft, i, s, bins)
  {
    (i: nat, s: States<T>) requires FrameInBounds(stft, i, bins) && WellShapedStep(step, bins) => Process(step, stft, i, s, bins)
  }

  /** With every frame in bounds and a well-shaped network, the denoiser's frame step
      is defined on every frame and always yields `bins` values per part. */
  lemma FrameStepUniform<T(!new)>(step: Step<T>, stft: StftResult<T>, bins: nat)
    requires FramesFit(stft, bins) && WellShapedStep(step, bins)
    ensures Uniform(FrameStepOf(step, stft, bins), FrameCount(stft), bins)
  {
  }

  /** The denoiser's frame loop: on top of the threading `Fold` states, call i is
      `Process` on frame i with the caches it was given, and the enhanced parts hold
      `bins` values per frame. */
  lemma FrameLoop<T(!new)>(step: Step<T>, stft: StftResult<T>, bins: nat, init: States<T>)
    requires FramesFit(stft, bins) && WellShapedStep(step, bins)
    ensures var n := FrameCount(stft);
            var p := Fold(FrameStepOf(step, stft, bins), init, n);
            && (forall i :: 0 <= i < n ==> (p.calls[i].output, p.calls[i].next) == Process(step, stft, i, p.calls[i].states, bins))
            && |p.re| == n * bins && |p.im| == n * bins
  {
    var f := FrameStepOf(step, stft, bins);
    var n := FrameCount(stft);
    FrameStepUniform(step, stft, bins);
    var p := Fold(f, init, n);
    forall i: nat | i < n
      ensures (p.calls[i].output, p.calls[i].next) == Process(step, stft, i, p.calls[i].states, bins)
    {
      assert FrameInBounds(stft, i, bins);
      assert (p.calls[i].output, p.calls[i].next) == f(i, p.calls[i].states);
    }
    ConcatUniformLength(RealParts(p.calls), bins);
    ConcatUniformLength(ImagParts(p.calls), bins);
    OffsetIsProduct(n, bins);
  }

  /** Fed a first input of the packed frame shape, the network answers `out0` with
      one row of real and one row of imaginary parts per bin. */
  ghost predicate WellShapedNet<T(!new)>(net: GtcrnModel.Net<T>, bins: nat) {
    forall b: seq<(string, Mat<T>)> :: |b| > 0 && FrameShaped(b[0].1, bins) ==> OutputFits(net(b)(GtcrnModel.BlobName("out", 0)), bins)
  }

  /** The network as a frame step: `GtcrnModel.Run` on the frame and three caches.
      Caches of any other count never occur in a run (the initial caches and every
      `Run` result are three); for them the frame alone is fed and the caches are
      passed on, which keeps the step total. A well-shaped network gives a
      well-shaped step. */
  function NetStep<T(!new)>(net: GtcrnModel.Net<T>): (step: Step<T>)
    ensures forall x, s :: |s| == 3 ==> step(x, s) == GtcrnModel.Run(net, x, s)
    ensures forall bins: nat :: WellShapedNet(net, bins) ==> WellShapedStep(step, bins)
    ensures KeepsThree(step)
  {
    var step := (x: Mat<T>, s: States<T>) =>
      if |s| == 3 then GtcrnModel.Run(net, x, s)
      else (net([(GtcrnModel.BlobName("in", 0), x)])(GtcrnModel.BlobName("out", 0)), s);
    assert forall bins: nat :: WellShapedNet(net, bins) ==> WellShapedStep(step, bins) by {
      forall bins: nat, x, s | WellShapedNet(net, bins) && FrameShaped(x, bins)
        ensures OutputFits(step(x, s).0, bins)
      {
        if |s| == 3 {
          assert step(x, s) == GtcrnModel.Run(net, x, s);
          assert GtcrnModel.Inputs(x, s)[0].1 == x;
          assert step(x, s).0 == net(GtcrnModel.Inputs(x, s))(GtcrnModel.BlobName("out", 0));
        } else {
          assert step(x, s).0 == net([(GtcrnModel.BlobName("in", 0), x)])(GtcrnModel.BlobName("out", 0));
        }
      }
    }
    step
  }

  /** Three caches in, three caches out. */
  ghost predicate KeepsThree<T(!new)>(step: Step<T>) {
    forall x, s :: |s| == 3 ==> |step(x, s).1| == 3
  }

  /** In a frame loop whose step keeps three caches, started from three, every call
      is given three caches. */
  lemma {:induction false} CallsHaveThreeCaches<T(!new)>(step: Step<T>, stft: StftResult<T>, bins: nat, init: States<T>, k: nat)
    requires FramesFit(stft, bins) && WellShapedStep(step, bins) && KeepsThree(step) && |init| == 3
    requires k < FrameCount(stft)
    ensures |Fold(FrameStepOf(step, stft, bins), init, FrameCount(stft)).calls[k].states| == 3
    decreases k
  {
    if k > 0 {
      CallsHaveThreeCaches(step, stft, bins, init, k - 1);
      var calls := Fold(FrameStepOf(step, stft, bins), init, FrameCount(stft)).calls;
      var prev := calls[k - 1];
      FrameLoop(step, stft, bins, init);
      assert prev.next == step(PackedInput(stft, k - 1, bins), prev.states).1;
      assert calls[k].states == prev.next;
    }
  }

  /** The frame loop and the network wiring joined: driven by the network from
      three caches, call i feeds frame i packed as `in0` and its caches as
      `in1..in3`, and returns `out0` unpacked and `out1..out3` as the next caches. */
  lemma NetFrameLoop<T(!new)>(net: GtcrnModel.Net<T>, stft: StftResult<T>, bins: nat, init: States<T>)
    requires FramesFit(stft, bins) && WellShapedNet(net, bins) && |init| == 3
    ensures var calls := Fold(FrameStepOf(NetStep(net), stft, bins), init, FrameCount(stft)).calls;
            forall i :: 0 <= i < FrameCount(stft) ==>
              && |calls[i].states| == 3
              && calls[i].output == Unpack(GtcrnModel.Run(net, PackedInput(stft, i, bins), calls[i].states).0, bins)
              && calls[i].next == GtcrnModel.Run(net, PackedInput(stft, i, bins), calls[i].states).1
  {
    FrameLoop(NetStep(net), stft, bins, init);
    var calls := Fold(FrameStepOf(NetStep(net), stft, bins), init, FrameCount(stft)).calls;
    forall i | 0 <= i < FrameCount(stft)
      ensures |calls[i].states| == 3
    {
      CallsHaveThreeCaches(NetStep(net), stft, bins, init, i);
    }
  }

  /** The enhanced spectrum: the input's frame count, and the folded parts. */
  function Enhance<T(!new)>(step: Step<T>, stft: StftResult<T>, bins: nat, init: States<T>): (e: StftResult<T>)
    requires FramesFit(stft, bins) && WellShapedStep(step, bins)
    ensures e.numFrames == stft.numFrames
    ensures |e.re| == FrameCount(stft) * bins && |e.im| == FrameCount(stft) * bins
    ensures var p := Fold(FrameStepOf(step, stft, bins), init, FrameCount(stft));
            e.re == Concat(RealParts(p.calls)) && e.im == Concat(ImagParts(p.calls))
  {
    var f := FrameStepOf(step, stft, bins);
    FrameLoop(step, stft, bins, init);
    var p := Fold(f, init, FrameCount(stft));
    StftResult(stft.numFrames, p.re, p.im)
  }

  /** One turn of the frame loop: frame i is `Process` on the caches the first i
      frames left, its parts are appended and its caches replace them. */
  lemma FoldStep<T(!new)>(step: Step<T>, stft: StftResult<T>, bins: nat, init: States<T>, i: nat)
    requires FramesFit(stft, bins) && WellShapedStep(step, bins)
    requires i < FrameCount(stft)
    ensures FrameInBounds(stft, i, bins)
    ensures var f := FrameStepOf(step, stft, bins);
            var p := Fold(f, init, i);
            var r := Process(step, stft, i, p.states, bins);
            && Fold(f, init, i + 1).re == p.re + r.0.re
            && Fold(f, init, i + 1).im == p.im + r.0.im
            && Fold(f, init, i + 1).states == r.1
  {
    var f := FrameStepOf(step, stft, bins);
    FrameStepUniform(step, stft, bins);
    assert FrameInBounds(stft, i, bins);
    assert f(i, Fold(f, init, i).states) == Process(step, stft, i, Fold(f, init, i).states, bins);
    FoldNext(f, init, i);
  }

  /** The frame loop as written: frame indexes ascending from zero while below the
      frame count, each frame processed with the current caches, which are then
      replaced by the ones it returned, its results appended to the enhanced parts. */
  method EnhanceFrames<T(!new)>(step: Step<T>, stft: StftResult<T>, bins: nat, init: States<T>) returns (enhanced: StftResult<T>)
    requires FramesFit(stft, bins) && WellShapedStep(step, bins)
    ensures enhanced.numFrames == stft.numFrames
    ensures enhanced.re == Fold(FrameStepOf(step, stft, bins), init, FrameCount(stft)).re
    ensures enhanced.im == Fold(FrameStepOf(step, stft, bins), init, FrameCount(stft)).im
  {
    ghost var f := FrameStepOf(step, stft, bins);
    FrameStepUniform(step, stft, bins);
    var states := init;
    var re: seq<T> := [];
    var im: seq<T> := [];
    var i: nat := 0;
    while i < stft.numFrames
      invariant i <= FrameCount(stft)
      invariant Fold(f, init, i).re == re
      invariant Fold(f, init, i).im == im
      invariant Fold(f, init, i).states == states
    {
      FoldStep(step, stft, bins, init, i);
      var r := Process(step, stft, i, states, bins);
      states := r.1;
      re := re + r.0.re;
      im := im + r.0.im;
      i := i + 1;
    }
    assert i == FrameCount(stft);
    enhanced := StftResult(stft.numFrames, re, im);
  }

  /** The denoised samples and the rate they are at. */
  datatype DenoisedAudio<T> = DenoisedAudio(samples: seq<T>, sampleRate: Int32)

  /** Everything one run computes, stage by stage. */
  datatype RunTrace<T> = RunTrace(
    prepared: Prepared<T>,
    stftConfig: StftConfig,
    spectrum: StftResult<T>,
    progress: Progress<T>,
    enhanced: StftResult<T>,
    audio: DenoisedAudio<T>)

  /** At the model's settings, the STFT returns as many values per part as its
      frame count needs. */
  ghost predicate StftFits<T(!new)>(stft: (StftConfig, seq<T>) -> StftResult<T>, meta: MetaData.GtcrnMetaData) {
    meta.nFft >= 0 && forall samples :: FramesFit(stft(StftConfigFor(meta), samples), MetaData.Bins(meta.nFft))
  }

  /** The parts of the denoiser's environment the model cannot see: the resampler,
      the STFT, the inverse STFT and the network step. */
  datatype Collaborators<!T> = Collaborators(
    resample: (ResamplerConfig, seq<T>) -> seq<T>,
    stft: (StftConfig, seq<T>) -> StftResult<T>,
    istft: (StftConfig, StftResult<T>) -> seq<T>,
    step: Step<T>)

  ghost predicate Fits<T(!new)>(env: Collaborators<T>, meta: MetaData.GtcrnMetaData) {
    meta.WellShaped() && StftFits(env.stft, meta) && WellShapedStep(env.step, MetaData.Bins(meta.nFft))
  }

  /** One denoising run, stage by stage: resample if needed, analyse, run the frame
      loop from zero caches, synthesise, and tag the result with the model's rate. */
  function RunTraced<T(!new)>(model: GtcrnModel.Model, env: Collaborators<T>, zero: T, samples: seq<T>, sampleRate: Int32): (t: RunTrace<T>)
    requires Fits(env, model.meta)
    ensures t.prepared == Prepare(samples, sampleRate, model.meta, env.resample)
    ensures t.stftConfig == StftConfigFor(model.meta)
    ensures t.spectrum == env.stft(t.stftConfig, t.prepared.samples)
    ensures FramesFit(t.spectrum, MetaData.Bins(model.meta.nFft))
    ensures t.progress == Fold(FrameStepOf(env.step, t.spectrum, MetaData.Bins(model.meta.nFft)), GtcrnModel.GetInitStates(model.meta, zero), FrameCount(t.spectrum))
    ensures t.enhanced.numFrames == t.spectrum.numFrames
    ensures t.enhanced.re == t.progress.re && t.enhanced.im == t.progress.im
    ensures t.audio == DenoisedAudio(env.istft(t.stftConfig, t.enhanced), model.meta.sampleRate)
  {
    var bins := MetaData.Bins(model.meta.nFft);
    var prepared := Prepare(samples, sampleRate, model.meta, env.resample);
    var config := StftConfigFor(model.meta);
    var spectrum := env.stft(config, prepared.samples);
    var init := GtcrnModel.GetInitStates(model.meta, zero);
    FrameStepUniform(env.step, spectrum, bins);
    var progress := Fold(FrameStepOf(env.step, spectrum, bins), init, FrameCount(spectrum));
    var enhanced := Enhance(env.step, spectrum, bins, init);
    RunTrace(prepared, config, spectrum, progress, enhanced, DenoisedAudio(env.istft(config, enhanced), model.meta.sampleRate))
  }

  /** `Run`: the inverse STFT, at the model's settings, of the spectrum the frame
      loop enhances from the zero caches, where that spectrum is the STFT of the
      (possibly resampled) input; tagged with the model's rate. */
  function Run<T(!new)>(model: GtcrnModel.Model, env: Collaborators<T>, zero: T, samples: seq<T>, sampleRate: Int32): (audio: DenoisedAudio<T>)
    requires Fits(env, model.meta)
    ensures audio.sampleRate == model.meta.sampleRate
    ensures var config := StftConfigFor(model.meta);
            var spectrum := env.stft(config, Prepare(samples, sampleRate, model.meta, env.resample).samples);
            var init := GtcrnModel.GetInitStates(model.meta, zero);
            audio.samples == env.istft(config, Enhance(env.step, spectrum, MetaData.Bins(model.meta.nFft), init))
  {
    RunTraced(model, env, zero, samples, sampleRate).audio
  }

  /** `GetSampleRate`: the rate in the model's metadata, 16000 Hz for the built-in
      defaults every loaded model carries. */
  function GetSampleRate(model: GtcrnModel.Model): (rate: Int32)
    ensures rate == model.meta.sampleRate
    ensures model.meta == MetaData.Default() ==> rate == 16000
  {
    model.meta.sampleRate
  }

  /** Whatever rate the input has, the output is at the rate `GetSampleRate` reports. */
  lemma RunTaggedWithModelRate<T(!new)>(model: GtcrnModel.Model, env: Collaborators<T>, zero: T, samples: seq<T>, sampleRate: Int32)
    requires Fits(env, model.meta)
    ensures Run(model, env, zero, samples, sampleRate).sampleRate == GetSampleRate(model)
  {
  }

  /** At the model's rate the resampler is never built: the samples reach the STFT
      unchanged, and which resampler is supplied makes no difference. */
  lemma RunSkipsResamplerAtModelRate<T(!new)>(model: GtcrnModel.Model, env: Collaborators<T>,
                                        other: (ResamplerConfig, seq<T>) -> seq<T>, zero: T, samples: seq<T>)
    requires Fits(env, model.meta)
    ensures RunTraced(model, env, zero, samples, model.meta.sampleRate).prepared == Prepared(samples, None)
    ensures Run(model, env.(resample := other), zero, samples, model.meta.sampleRate)
            == Run(model, env, zero, samples, model.meta.sampleRate)
  {
  }

  /** The state threading of a run: frame i is the i-th model call, the first call
      gets the zero caches, each later call the caches the previous one returned,
      and the enhanced frame i is what call i produced. */
  lemma RunThreadsStates<T(!new)>(model: GtcrnModel.Model, env: Collaborators<T>, zero: T, samples: seq<T>, sampleRate: Int32)
    requires Fits(env, model.meta)
    ensures var t := RunTraced(model, env, zero, samples, sampleRate);
            var bins := MetaData.Bins(model.meta.nFft);
            var n := FrameCount(t.spectrum);
            var calls := t.progress.calls;
            && |calls| == n
            && (n > 0 ==> calls[0].states == GtcrnModel.GetInitStates(model.meta, zero))
            && (forall i :: 0 < i < n ==> calls[i].states == calls[i - 1].next)
            && (forall i :: 0 <= i < n ==> (calls[i].output, calls[i].next) == Process(env.step, t.spectrum, i, calls[i].states, bins))
            && t.enhanced.re == Concat(RealParts(calls)) && t.enhanced.im == Concat(ImagParts(calls))
  {
    var t := RunTraced(model, env, zero, samples, sampleRate);
    var bins := MetaData.Bins(model.meta.nFft);
    var init := GtcrnModel.GetInitStates(model.meta, zero);
    assert FramesFit(t.spectrum, bins);
    assert t.progress == Fold(FrameStepOf(env.step, t.spectrum, bins), init, FrameCount(t.spectrum));
    FrameLoop(env.step, t.spectrum, bins, init);
  }

  /** A run driven by the network itself: every frame's call feeds the packed frame
      as `in0` and its three caches as `in1..in3`, starting from the zero caches,
      and takes `out0` (unpacked) and `out1..out3` as the next caches. */
  lemma RunWiresNetwork<T(!new)>(model: GtcrnModel.Model, env: Collaborators<T>, net: GtcrnModel.Net<T>, zero: T, samples: seq<T>, sampleRate: Int32)
    requires Fits(env, model.meta) && env.step == NetStep(net) && WellShapedNet(net, MetaData.Bins(model.meta.nFft))
    ensures var t := RunTraced(model, env, zero, samples, sampleRate);
            var bins := MetaData.Bins(model.meta.nFft);
            var calls := t.progress.calls;
            && (FrameCount(t.spectrum) > 0 ==> calls[0].states == GtcrnModel.GetInitStates(model.meta, zero))
            && forall i :: 0 <= i < FrameCount(t.spectrum) ==>
                 && |calls[i].states| == 3
                 && calls[i].output == Unpack(GtcrnModel.Run(net, PackedInput(t.spectrum, i, bins), calls[i].states).0, bins)
                 && calls[i].next == GtcrnModel.Run(net, PackedInput(t.spectrum, i, bins), calls[i].states).1
  {
    var t := RunTraced(model, env, zero, samples, sampleRate);
    var bins := MetaData.Bins(model.meta.nFft);
    var init := GtcrnModel.GetInitStates(model.meta, zero);
    assert FramesFit(t.spectrum, bins);
    assert t.progress == Fold(FrameStepOf(NetStep(net), t.spectrum, bins), init, FrameCount(t.spectrum));
    NetFrameLoop(net, t.spectrum, bins, init);
  }
}
