/** The GTCRN model configuration: two model file paths and a thread count, their
    command-line registration, the ordered validation chain and the text rendering. */
module GtcrnModelConfig {
  import opened Common
  import Text

  /** The struct's three fields; the datatype constructor is the struct's
      three-argument constructor, which stores its arguments without checking them. */
  datatype Config = Config(param: string, bin: string, numThreads: Int32)

  /** The default-constructed configuration: empty paths and one thread. */
  function Default(): (c: Config)
    ensures c.param == [] && c.bin == []
    ensures c.numThreads == 1
  {
    Config("", "", 1)
  }

  /** The three options `Register` adds, in registration order. */
  const Options: seq<OptionEntry> := [
    OptionEntry("speech-denoiser-gtcrn-param", "Path to the gtcrn.ncnn.param for speech denoising"),
    OptionEntry("speech-denoiser-gtcrn-bin", "Path to the gtcrn.ncnn.bin for speech denoising"),
    OptionEntry("speech-denoiser-gtcrn-num-threads", "Number of threads used to run the gtcrn model")
  ]

  /** Registration appends the param, bin and thread-count options, in that order,
      to what the parser already holds. */
  function Register(po: seq<OptionEntry>): (r: seq<OptionEntry>)
    ensures |r| == |po| + 3 && r[..|po|] == po
    ensures r[|po|..] == Options
    ensures Names(r[|po|..]) == ["speech-denoiser-gtcrn-param", "speech-denoiser-gtcrn-bin", "speech-denoiser-gtcrn-num-threads"]
  {
    assert (po + Options)[|po|..] == Options;
    po + Options
  }

  /** The checks of `Validate`, in the order they run; each carries what the
      failing check looked at. */
  datatype ConfigError =
    | EmptyParam
    | MissingParam(path: string)
    | EmptyBin
    | MissingBin(path: string)
    | BadThreadCount(given: Int32)
  {
    /** Position of the check in the chain. */
    function Rank(): nat {
      match this
      case EmptyParam => 0
      case MissingParam(_) => 1
      case EmptyBin => 2
      case MissingBin(_) => 3
      case BadThreadCount(_) => 4
    }
  }

  /** Whether check number `k` of the chain fails, judged on its own. */
  predicate CheckFails(c: Config, fileExists: string -> bool, k: nat) {
    if k == 0 then c.param == []
    else if k == 1 then !fileExists(c.param)
    else if k == 2 then c.bin == []
    else if k == 3 then !fileExists(c.bin)
    else k == 4 && c.numThreads < 1
  }

  /** The order-free statement of what a usable configuration is. */
  predicate Acceptable(c: Config, fileExists: string -> bool) {
    c.param != [] && c.bin != [] && fileExists(c.param) && fileExists(c.bin) && c.numThreads >= 1
  }

  /** The outcome of one validation run: the check that failed first, if any, and
      the paths handed to `FileExists`, in order. */
  datatype Validation = Validation(failure: Option<ConfigError>, probed: seq<string>) {
    predicate Ok() {
      failure.None?
    }
  }

  /** The validation chain. `fileExists` stands for the file-system probe. The first
      failing check decides the result and no later check runs, so no path is
      probed before it is known to be non-empty. */
  function Validate(c: Config, fileExists: string -> bool): (r: Validation)
    ensures r.Ok() <==> Acceptable(c, fileExists)
    ensures r.failure.Some? ==>
              && CheckFails(c, fileExists, r.failure.value.Rank())
              && forall k :: 0 <= k < r.failure.value.Rank() ==> !CheckFails(c, fileExists, k)
    ensures c.param == [] ==> r == Validation(Some(EmptyParam), [])
    ensures c.param != [] && !fileExists(c.param) ==> r == Validation(Some(MissingParam(c.param)), [c.param])
    ensures c.param != [] && fileExists(c.param) && c.bin == [] ==> r == Validation(Some(EmptyBin), [c.param])
    ensures forall p :: p in r.probed ==> p != []
    ensures c.bin in r.probed && c.bin != c.param ==> fileExists(c.param)
  {
    if c.param == [] then Validation(Some(EmptyParam), [])
    else if !fileExists(c.param) then Validation(Some(MissingParam(c.param)), [c.param])
    else if c.bin == [] then Validation(Some(EmptyBin), [c.param])
    else if !fileExists(c.bin) then Validation(Some(MissingBin(c.bin)), [c.param, c.bin])
    else if c.numThreads < 1 then Validation(Some(BadThreadCount(c.numThreads)), [c.param, c.bin])
    else Validation(None, [c.param, c.bin])
  }

  /** `Validate()` as the struct exposes it: just the verdict. */
  function IsValid(c: Config, fileExists: string -> bool): (ok: bool)
    ensures ok <==> Acceptable(c, fileExists)
  {
    Validate(c, fileExists).Ok()
  }

  /** A thread count below one is rejected even when both files exist. */
  lemma ThreadCountRejectedAfterFiles(c: Config, fileExists: string -> bool)
    requires c.param != [] && c.bin != [] && fileExists(c.param) && fileExists(c.bin)
    requires c.numThreads < 1
    ensures Validate(c, fileExists) == Validation(Some(BadThreadCount(c.numThreads)), [c.param, c.bin])
    ensures !IsValid(c, fileExists)
  {
  }

  /** The constructor does not check: the default configuration and one with no
      threads both exist as values, and only validation rejects them. */
  lemma ConstructorDoesNotCheck(fileExists: string -> bool)
    ensures Validate(Default(), fileExists).failure == Some(EmptyParam)
    ensures var c := Config("a.param", "a.bin", 0);
            fileExists("a.param") && fileExists("a.bin") ==> Validate(c, fileExists).failure == Some(BadThreadCount(0))
  {
  }

  const Head: string := "OfflineSpeechDenoiserGtcrnModelConfig(param=\""
  const BinSep: string := "\", bin=\""
  const ThreadsSep: string := "\", num_threads="

  /** `r` lays out, in order: `head`, the param path, `binSep`, the bin path,
      `threadsSep`, the canonical decimal of `threads` (which reads back as
      `threads`), and ')'. */
  predicate Lays(r: string, head: string, param: string, binSep: string, bin: string, threadsSep: string, threads: int) {
    var p := |head| + |param|;
    var t := p + |binSep| + |bin|;
    && head <= r && param <= r[|head|..] && binSep <= r[p..] && bin <= r[p + |binSep|..]
    && threadsSep <= r[t..] && t + |threadsSep| < |r| && r[|r| - 1] == ')'
    && r[t + |threadsSep|..|r| - 1] == Text.IntToString(threads)
    && Text.ParseInt(r[t + |threadsSep|..|r| - 1]) == Some(threads)
  }

  /** The text `ToString()` builds: the head, the param path, the bin separator,
      the bin path, the thread separator, the thread count in decimal, and a
      closing parenthesis. */
  function ToString(c: Config): (r: string)
    ensures Lays(r, Head, c.param, BinSep, c.bin, ThreadsSep, c.numThreads)
  {
    RenderedFields(Head, c.param, BinSep, c.bin, ThreadsSep, c.numThreads);
    Head + (c.param + (BinSep + (c.bin + (ThreadsSep + Text.IntToString(c.numThreads) + ")"))))
  }

  /** Any rendering lays out its fields in order, whatever their texts. */
  lemma RenderedFields(head: string, param: string, binSep: string, bin: string, threadsSep: string, threads: int)
    ensures Lays(head + (param + (binSep + (bin + (threadsSep + Text.IntToString(threads) + ")")))),
                 head, param, binSep, bin, threadsSep, threads)
  {
    var n := Text.IntToString(threads);
    var tail := threadsSep + n + ")";
    var r := head + (param + (binSep + (bin + tail)));
    Text.ParseIntToString(threads);
    assert r[|head|..] == param + (binSep + (bin + tail));
    assert r[|head| + |param|..] == binSep + (bin + tail);
    assert r[|head| + |param| + |binSep|..] == bin + tail;
    assert r[|head| + |param| + |binSep| + |bin|..] == tail;
    var t := |head| + |param| + |binSep| + |bin|;
    assert r[t + |threadsSep|..|r| - 1] == tail[|threadsSep|..|tail| - 1] == n;
  }

  /** A path the rendering keeps recoverable: one with no double quote in it. */
  predicate Unquoted(path: string) {
    '"' !in path
  }

  /** Reads back a rendering: the head, the param up to the next quote, the bin
      separator, the bin up to the next quote, the thread separator, then a
      decimal `int32_t` closed by ')'. */
  function Parse(s: string): Option<Config> {
    if Head <= s then ParseFields(s[|Head|..]) else None
  }

  /** The text after the head: the param runs up to the first quote. */
  function ParseFields(r: string): Option<Config> {
    match Text.FirstIndex(r, '"')
    case None => None
    case Some(j) =>
      if BinSep <= r[j..] then ParseBin(r[..j], r[j..][|BinSep|..]) else None
  }

  /** The text after the bin separator: the bin runs up to the first quote. */
  function ParseBin(param: string, r: string): Option<Config> {
    match Text.FirstIndex(r, '"')
    case None => None
    case Some(k) => ParseThreads(param, r[..k], r[k..])
  }

  /** The thread separator, a decimal `int32_t`, and the closing parenthesis. */
  function ParseThreads(param: string, bin: string, r: string): Option<Config> {
    if ThreadsSep <= r && |r| > |ThreadsSep| && r[|r| - 1] == ')' then
      match Text.ParseInt(r[|ThreadsSep|..|r| - 1])
      case None => None
      case Some(n) =>
        if -0x8000_0000 <= n < 0x8000_0000 then Some(Config(param, bin, n)) else None
    else None
  }

  lemma ParseThreadsRendering(param: string, bin: string, n: Int32)
    ensures ParseThreads(param, bin, ThreadsSep + Text.IntToString(n) + ")") == Some(Config(param, bin, n))
  {
    var num := Text.IntToString(n);
    var r := ThreadsSep + num + ")";
    assert r[|ThreadsSep|..|r| - 1] == num;
    Text.ParseIntToString(n);
  }

  lemma ParseBinSkipsBin(param: string, bin: string, t: string)
    requires Unquoted(bin) && |t| > 0 && t[0] == '"'
    ensures ParseBin(param, bin + t) == ParseThreads(param, bin, t)
  {
    assert bin + t == bin + [t[0]] + t[1..];
    Text.FirstIndexAfter(bin, '"', t[1..]);
    assert (bin + t)[..|bin|] == bin;
    assert (bin + t)[|bin|..] == t;
  }

  lemma ParseFieldsSkipsParam(param: string, t: string)
    requires Unquoted(param) && BinSep <= t
    ensures ParseFields(param + t) == ParseBin(param, t[|BinSep|..])
  {
    assert t[0] == BinSep[0];
    assert param + t == param + [t[0]] + t[1..];
    Text.FirstIndexAfter(param, '"', t[1..]);
    assert (param + t)[..|param|] == param;
    assert (param + t)[|param|..] == t;
  }

  lemma ParseSkipsHead(r: string)
    ensures Parse(Head + r) == ParseFields(r)
  {
    assert (Head + r)[|Head|..] == r;
  }

  /** The rendering loses nothing: parsing it gives back the configuration, as long
      as neither path contains a double quote. */
  lemma ParseToString(c: Config)
    requires Unquoted(c.param) && Unquoted(c.bin)
    ensures Parse(ToString(c)) == Some(c)
  {
    var tail := ThreadsSep + Text.IntToString(c.numThreads) + ")";
    var t := BinSep + (c.bin + tail);
    ParseSkipsHead(c.param + t);
    ParseFieldsSkipsParam(c.param, t);
    assert t[|BinSep|..] == c.bin + tail;
    ParseBinSkipsBin(c.param, c.bin, tail);
    ParseThreadsRendering(c.param, c.bin, c.numThreads);
  }

  /** Two configurations with quote-free paths render alike only if they are equal. */
  lemma ToStringInjective(c1: Config, c2: Config)
    requires Unquoted(c1.param) && Unquoted(c1.bin) && Unquoted(c2.param) && Unquoted(c2.bin)
    requires ToString(c1) == ToString(c2)
    ensures c1 == c2
  {
    ParseToString(c1);
    ParseToString(c2);
  }
}
