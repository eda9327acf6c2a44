/** The glue around the GTCRN network: zero initial caches shaped from the metadata,
    the fixed wiring of inputs and outputs by blob name, the thread and GPU options,
    and the tables that map `inN` / `outN` blob names to blob positions. The network
    itself is a function parameter. */
module GtcrnModel {
  import opened Common
  import Text
  import MetaData
  import ModelConfig

  /** An `ncnn::Mat` reduced to its rank, its width, height and channel count, and
      its elements as one flat sequence (channel alignment padding left out). */
  datatype Mat<T> = Mat(dims: nat, w: nat, h: nat, c: nat, data: seq<T>) {
    predicate Valid() {
      |data| == w * h * c
    }
  }

  /** The recurrent caches, in the order conv, tra, inter. */
  type States<T> = seq<Mat<T>>

  /** A tensor of the given extents whose every element is `v`. */
  function Filled<T>(dims: nat, w: nat, h: nat, c: nat, v: T): (m: Mat<T>)
    ensures m.Valid() && m.dims == dims && m.w == w && m.h == h && m.c == c
    ensures forall i :: 0 <= i < |m.data| ==> m.data[i] == v
  {
    Mat(dims, w, h, c, seq(w * h * c, _ => v))
  }

  lemma ProductOfThree(shape: seq<int>)
    requires |shape| == 3
    ensures MetaData.Product(shape) == shape[2] * shape[1] * shape[0]
  {
    var tail := shape[1..];
    assert MetaData.Product(tail[1..][1..]) == 1;
    assert MetaData.Product(tail[1..]) == shape[2];
    assert MetaData.Product(tail) == shape[1] * shape[2];
  }

  lemma ProductOfTwo(shape: seq<int>)
    requires |shape| == 2
    ensures MetaData.Product(shape) == shape[1] * shape[0] * 1
  {
    assert MetaData.Product(shape[1..][1..]) == 1;
    assert MetaData.Product(shape[1..]) == shape[1];
  }

  /** The initial caches: conv, tra and inter, in that order, each all `zero`, each
      with its metadata shape read back to front as (w, h, c), so that it holds as
      many elements as its shape's product. */
  function GetInitStates<T>(meta: MetaData.GtcrnMetaData, zero: T): (s: States<T>)
    requires meta.WellShaped()
    ensures |s| == 3
    ensures s[0].dims == 3
    ensures (s[0].w, s[0].h, s[0].c) == (meta.convCacheShape[2], meta.convCacheShape[1], meta.convCacheShape[0])
    ensures s[1].dims == 2
    ensures (s[1].w, s[1].h, s[1].c) == (meta.traCacheShape[1], meta.traCacheShape[0], 1)
    ensures s[2].dims == 3
    ensures (s[2].w, s[2].h, s[2].c) == (meta.interCacheShape[2], meta.interCacheShape[1], meta.interCacheShape[0])
    ensures |s[0].data| == MetaData.Product(meta.convCacheShape)
    ensures |s[1].data| == MetaData.Product(meta.traCacheShape)
    ensures |s[2].data| == MetaData.Product(meta.interCacheShape)
    ensures forall k, i :: 0 <= k < 3 && 0 <= i < |s[k].data| ==> s[k].data[i] == zero
  {
    var conv := meta.convCacheShape;
    var tra := meta.traCacheShape;
    var inter := meta.interCacheShape;
    ProductOfThree(conv);
    ProductOfTwo(tra);
    ProductOfThree(inter);
    [Filled(3, conv[2], conv[1], conv[0], zero),
     Filled(2, tra[1], tra[0], 1, zero),
     Filled(3, inter[2], inter[1], inter[0], zero)]
  }

  /** The name of the blob `prefix` followed by the decimal index `k`. */
  function BlobName(prefix: string, k: nat): string {
    prefix + Text.NatToString(k)
  }

  /** The four names of each kind that the wiring uses. */
  lemma WiredNames()
    ensures BlobName("in", 0) == "in0" && BlobName("in", 1) == "in1"
    ensures BlobName("in", 2) == "in2" && BlobName("in", 3) == "in3"
    ensures BlobName("out", 0) == "out0" && BlobName("out", 1) == "out1"
    ensures BlobName("out", 2) == "out2" && BlobName("out", 3) == "out3"
  {
    assert Text.NatToString(0) == ['0'] && Text.NatToString(1) == ['1'];
    assert Text.NatToString(2) == ['2'] && Text.NatToString(3) == ['3'];
  }

  /** The network as the wiring sees it: handed named inputs, it yields a value for
      every output name asked for. */
  type Net<!T> = seq<(string, Mat<T>)> -> (string -> Mat<T>)

  /** The inputs `Run` hands the extractor, in the order it sets them: the frame as
      `in0`, then cache k as `in(k+1)`. */
  function Inputs<T>(x: Mat<T>, states: States<T>): (b: seq<(string, Mat<T>)>)
    requires |states| == 3
    ensures |b| == 4
    ensures b[0] == (BlobName("in", 0), x)
    ensures forall k :: 0 <= k < 3 ==> b[k + 1] == (BlobName("in", k + 1), states[k])
  {
    WiredNames();
    [("in0", x), ("in1", states[0]), ("in2", states[1]), ("in3", states[2])]
  }

  /** One network step: the frame output is `out0` and next cache k is `out(k+1)`;
      three next caches always come back. */
  function Run<T>(net: Net<T>, x: Mat<T>, states: States<T>): (r: (Mat<T>, States<T>))
    requires |states| == 3
    ensures |r.1| == 3
    ensures r.0 == net(Inputs(x, states))(BlobName("out", 0))
    ensures forall k :: 0 <= k < 3 ==> r.1[k] == net(Inputs(x, states))(BlobName("out", k + 1))
  {
    WiredNames();
    var extract := net(Inputs(x, states));
    (extract("out0"), [extract("out1"), extract("out2"), extract("out3")])
  }

  /** The options of `ncnn::Net` that `Init` touches. */
  datatype NetOptions = NetOptions(numThreads: Int32, useVulkanCompute: bool)

  /** Whether a GPU is usable: ncnn built with Vulkan and at least one device found. */
  function HasGpu(vulkanBuilt: bool, gpuCount: int): (has: bool)
    ensures !vulkanBuilt ==> !has
    ensures vulkanBuilt ==> (has <==> gpuCount > 0)
  {
    vulkanBuilt && gpuCount > 0
  }

  /** Copies the thread count from the configuration and switches Vulkan on only
      when a GPU is present and the configuration asks for it; otherwise the
      network's own setting is left as it was. */
  function Init(opt: NetOptions, config: ModelConfig.Config, hasGpu: bool): (r: NetOptions)
    ensures r.numThreads == config.gtcrn.numThreads
    ensures r.useVulkanCompute <==> (hasGpu && config.useVulkanCompute) || opt.useVulkanCompute
    ensures !(hasGpu && config.useVulkanCompute) ==> r.useVulkanCompute == opt.useVulkanCompute
  {
    var threaded := opt.(numThreads := config.gtcrn.numThreads);
    if hasGpu && config.useVulkanCompute then threaded.(useVulkanCompute := true) else threaded
  }

  /** A full match of `name` against `prefix` followed by one or more decimal
      digits, giving the digits' value. */
  function MatchIndexed(name: string, prefix: string): (r: Option<nat>)
    ensures r.Some? <==> prefix <= name && |name| > |prefix| && Text.AllDigits(name[|prefix|..])
    ensures r.Some? ==> r.value == Text.DigitsValue(name[|prefix|..])
  {
    if prefix <= name then Text.ParseNat(name[|prefix|..]) else None
  }

  /** How the index scan reads a blob name: `in(\d+)` is tried first, then `out(\d+)`. */
  datatype BlobKind = Input(index: nat) | Output(index: nat) | Other

  /** `name` is `prefix` followed by one or more decimal digits. */
  predicate IndexedBy(name: string, prefix: string) {
    prefix <= name && |name| > |prefix| && Text.AllDigits(name[|prefix|..])
  }

  /** A name of either pattern starts with its prefix's first letter. */
  lemma IndexedByHead(name: string)
    ensures IndexedBy(name, "in") ==> name[0] == 'i'
    ensures IndexedBy(name, "out") ==> name[0] == 'o'
  {
    if IndexedBy(name, "in") {
      assert name[0] == "in"[0];
    }
    if IndexedBy(name, "out") {
      assert name[0] == "out"[0];
    }
  }

  /** The two patterns never both match, so which is tried first does not change
      the result; the index is the value of the digits after the prefix. */
  function Classify(name: string): (k: BlobKind)
    ensures k.Input? <==> IndexedBy(name, "in")
    ensures k.Output? <==> IndexedBy(name, "out")
    ensures k.Input? ==> k.index == Text.DigitsValue(name[2..])
    ensures k.Output? ==> k.index == Text.DigitsValue(name[3..])
  {
    IndexedByHead(name);
    match MatchIndexed(name, "in")
    case Some(n) => Input(n)
    case None =>
      match MatchIndexed(name, "out")
      case Some(n) => Output(n)
      case None => Other
  }

  /** The names `Run` wires are exactly the names the scan files under slot k. */
  lemma {:induction false} ClassifyBlobName(k: nat)
    ensures Classify(BlobName("in", k)) == Input(k)
    ensures Classify(BlobName("out", k)) == Output(k)
  {
    var digits := Text.NatToString(k);
    Text.DigitsValueOfNatToString(k);
    assert BlobName("in", k)[2..] == digits;
    assert BlobName("out", k)[3..] == digits;
    assert !("in" <= BlobName("out", k)) by {
      assert BlobName("out", k)[0] == 'o';
    }
  }

  /** Names that only partly match, or not at all, are ignored by the scan. */
  lemma PartialMatchesIgnored()
    ensures Classify("in0x") == Other
    ensures Classify("in") == Other
    ensures Classify("xout1") == Other
  {
    assert !Text.IsDigit("in0x"[3]);
    assert !Text.AllDigits("in0x"[2..]);
    assert "xout1"[0] == 'x';
  }

  /** The scan writes slot `n` of a four-slot table for every match, which is only
      defined for n < 4. */
  predicate IndexInRange(name: string) {
    match Classify(name)
    case Input(n) => n < 4
    case Output(n) => n < 4
    case Other => true
  }

  /** How the scan reads each blob name, position by position. */
  function Kinds(blobs: seq<string>): (kinds: seq<BlobKind>)
    ensures |kinds| == |blobs|
    ensures forall i :: 0 <= i < |blobs| ==> kinds[i] == Classify(blobs[i])
  {
    seq(|blobs|, i requires 0 <= i < |blobs| => Classify(blobs[i]))
  }

  /** The last position holding the given kind, if any. */
  function LastMatch(kinds: seq<BlobKind>, kind: BlobKind): (r: Option<nat>)
    ensures r.Some? ==> r.value < |kinds| && kinds[r.value] == kind
    ensures r.Some? ==> forall j :: r.value < j < |kinds| ==> kinds[j] != kind
    ensures r.None? ==> kind !in kinds
  {
    if |kinds| == 0 then None
    else if kinds[|kinds| - 1] == kind then Some(|kinds| - 1)
    else LastMatch(kinds[..|kinds| - 1], kind)
  }

  lemma LastMatchExtend(kinds: seq<BlobKind>, i: nat, kind: BlobKind)
    requires i < |kinds|
    ensures LastMatch(kinds[..i + 1], kind)
            == (if kinds[i] == kind then Some(i) else LastMatch(kinds[..i], kind))
  {
    var p := kinds[..i + 1];
    assert p[|p| - 1] == kinds[i];
    assert p[..|p| - 1] == kinds[..i];
  }

  /** The kind that slot `k` of the input table (`input`) or of the output table
      (`!input`) records. */
  function Slot(input: bool, k: nat): BlobKind {
    if input then Input(k) else Output(k)
  }

  /** Whether a blob of this kind writes into the input table (`input`) or the
      output table (`!input`). */
  predicate Fills(kind: BlobKind, input: bool) {
    if input then kind.Input? else kind.Output?
  }

  /** One table holds, for every slot, the last position among `kinds` that
      matched it, or zero. */
  ghost predicate TableFor(kinds: seq<BlobKind>, table: seq<int>, input: bool) {
    |table| == 4 && forall k :: 0 <= k < 4 ==> table[k] == LastMatch(kinds, Slot(input, k)).GetOr(0)
  }

  /** One scan step on one table: a matching blob overwrites its slot with its
      position, any other blob leaves the table as it was. */
  lemma TableForExtend(kinds: seq<BlobKind>, i: nat, table: seq<int>, input: bool)
    requires i < |kinds| && TableFor(kinds[..i], table, input)
    requires Fills(kinds[i], input) ==> kinds[i].index < 4
    ensures Fills(kinds[i], input) ==> TableFor(kinds[..i + 1], table[kinds[i].index := i], input)
    ensures !Fills(kinds[i], input) ==> TableFor(kinds[..i + 1], table, input)
  {
    forall k | 0 <= k < 4
      ensures LastMatch(kinds[..i + 1], Slot(input, k))
              == (if kinds[i] == Slot(input, k) then Some(i) else LastMatch(kinds[..i], Slot(input, k)))
    {
      LastMatchExtend(kinds, i, Slot(input, k));
    }
  }

  /** The blob scan: two four-slot tables, zero where nothing matched, and where
      several blobs match one slot the later position wins. */
  method InitInputOutputIndexes(blobs: seq<string>) returns (inputIndexes: seq<int>, outputIndexes: seq<int>)
    requires forall i :: 0 <= i < |blobs| ==> IndexInRange(blobs[i])
    ensures |inputIndexes| == 4 && |outputIndexes| == 4
    ensures forall k :: 0 <= k < 4 ==> inputIndexes[k] == LastMatch(Kinds(blobs), Input(k)).GetOr(0)
    ensures forall k :: 0 <= k < 4 ==> outputIndexes[k] == LastMatch(Kinds(blobs), Output(k)).GetOr(0)
  {
    var kinds := Kinds(blobs);
    inputIndexes := [0, 0, 0, 0];
    outputIndexes := [0, 0, 0, 0];
    var i := 0;
    while i < |blobs|
      invariant 0 <= i <= |blobs|
      invariant TableFor(kinds[..i], inputIndexes, true)
      invariant TableFor(kinds[..i], outputIndexes, false)
    {
      var kind := kinds[i];
      assert IndexInRange(blobs[i]);
      TableForExtend(kinds, i, inputIndexes, true);
      TableForExtend(kinds, i, outputIndexes, false);
      if kind.Input? {
        inputIndexes := inputIndexes[kind.index := i];
      } else if kind.Output? {
        outputIndexes := outputIndexes[kind.index := i];
      }
      i := i + 1;
    }
    assert kinds[..|blobs|] == kinds;
    assert forall k :: 0 <= k < 4 ==> Slot(true, k) == Input(k) && Slot(false, k) == Output(k);
  }

  /** A loaded model: its configuration, metadata, network options and index tables. */
  datatype Model = Model(
    config: ModelConfig.Config,
    meta: MetaData.GtcrnMetaData,
    options: NetOptions,
    inputIndexes: seq<int>,
    outputIndexes: seq<int>)

  /** Construction: `Init`, then loading (which yields the network's blob names),
      then the index scan. `vulkanBuilt` says whether ncnn was built with Vulkan and
      `gpuCount` is what the device query reports. The metadata is never read from
      the model files. */
  method NewModel(config: ModelConfig.Config, opt: NetOptions, vulkanBuilt: bool, gpuCount: int, blobs: seq<string>) returns (m: Model)
    requires forall i :: 0 <= i < |blobs| ==> IndexInRange(blobs[i])
    ensures m.config == config
    ensures |m.inputIndexes| == 4 && |m.outputIndexes| == 4
    ensures m.meta == MetaData.Default()
    ensures m.options.numThreads == config.gtcrn.numThreads
    ensures m.options.useVulkanCompute <==> (vulkanBuilt && gpuCount > 0 && config.useVulkanCompute) || opt.useVulkanCompute
    ensures !vulkanBuilt ==> m.options.useVulkanCompute == opt.useVulkanCompute
    ensures forall k :: 0 <= k < 4 ==> m.inputIndexes[k] == LastMatch(Kinds(blobs), Input(k)).GetOr(0)
    ensures forall k :: 0 <= k < 4 ==> m.outputIndexes[k] == LastMatch(Kinds(blobs), Output(k)).GetOr(0)
  {
    var options := Init(opt, config, HasGpu(vulkanBuilt, gpuCount));
    var inputIndexes, outputIndexes := InitInputOutputIndexes(blobs);
    m := Model(config, MetaData.Default(), options, inputIndexes, outputIndexes);
  }
}
