/** The GTCRN model's metadata record and its built-in defaults. */
module MetaData {
  import opened Common

  /** The metadata the denoiser reads: the model's sample rate, the STFT framing
      parameters, and the shapes of the three recurrent caches in the order the
      model stores them (outermost dimension first). */
  datatype GtcrnMetaData = GtcrnMetaData(
    sampleRate: Int32,
    version: Int32,
    nFft: Int32,
    hopLength: Int32,
    windowLength: Int32,
    windowType: string,
    convCacheShape: seq<Int32>,
    traCacheShape: seq<Int32>,
    interCacheShape: seq<Int32>)
  {
    /** What the cache builder and the frame packer rely on: a non-negative FFT
        size, three-dimensional conv and inter caches, a two-dimensional tra cache,
        and no negative extent anywhere. */
    predicate WellShaped() {
      && nFft >= 0
      && |convCacheShape| == 3
      && |traCacheShape| == 2
      && |interCacheShape| == 3
      && NonNegative(convCacheShape)
      && NonNegative(traCacheShape)
      && NonNegative(interCacheShape)
    }
  }

  predicate NonNegative(shape: seq<int>) {
    forall i :: 0 <= i < |shape| ==> shape[i] >= 0
  }

  /** The number of elements a tensor of the given shape holds. */
  function Product(shape: seq<int>): int {
    if |shape| == 0 then 1 else shape[0] * Product(shape[1..])
  }

  /** One-sided spectrum size: the `n_fft / 2 + 1` bins of a real-input FFT.
      For the non-negative sizes allowed here C++'s truncating division and
      Dafny's Euclidean division agree. */
  function Bins(nFft: int): (b: nat)
    requires nFft >= 0
    ensures 2 * (b - 1) <= nFft <= 2 * (b - 1) + 1
  {
    nFft / 2 + 1
  }

  /** The member initialisers of the metadata struct: the metadata is never read
      from the model file, so every model instance carries exactly these values. */
  function Default(): (m: GtcrnMetaData)
    ensures m.WellShaped()
    ensures Bins(m.nFft) == 257
    ensures 2 * m.hopLength == m.nFft && m.windowLength == m.nFft
    ensures Product(m.convCacheShape) == 16896
    ensures Product(m.traCacheShape) == 96
    ensures Product(m.interCacheShape) == 1056
  {
    GtcrnMetaData(
      sampleRate := 16000,
      version := 1,
      nFft := 512,
      hopLength := 256,
      windowLength := 512,
      windowType := "hann_sqrt",
      convCacheShape := [16, 32, 33],
      traCacheShape := [6, 16],
      interCacheShape := [1, 33, 32])
  }

  /** The default metadata is the 16 kHz, 512-point, half-overlap, square-root Hann
      configuration. */
  lemma DefaultIsSqrtHannAt16k()
    ensures Default().sampleRate == 16000
    ensures Default().nFft == 512 && Default().hopLength == 256 && Default().windowLength == 512
    ensures Default().windowType == "hann_sqrt"
  {
  }
}
