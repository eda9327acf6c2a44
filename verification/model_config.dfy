/** The speech-denoiser model configuration: the GTCRN part plus a debug flag and the
    acceleration preference. */
module ModelConfig {
  import opened Common
  import GtcrnModelConfig

  datatype Config = Config(gtcrn: GtcrnModelConfig.Config, debug: bool, useVulkanCompute: bool)

  /** The default-constructed configuration: default GTCRN part, no debug output,
      acceleration wanted. */
  function Default(): (c: Config)
    ensures c.gtcrn == GtcrnModelConfig.Default()
    ensures !c.debug && c.useVulkanCompute
  {
    Config(GtcrnModelConfig.Default(), false, true)
  }

  /** The three-argument constructor. Its thread-count argument is accepted and
      dropped: the result differs from the default only in `gtcrn` and `debug`. */
  function Make(gtcrn: GtcrnModelConfig.Config, numThreads: Int32, debug: bool): (c: Config)
    ensures c == Default().(gtcrn := gtcrn, debug := debug)
  {
    Config(gtcrn, debug, true)
  }

  /** Whatever thread count is passed, the GTCRN part keeps its own, and acceleration
      stays requested. */
  lemma MakeDiscardsThreadCount(gtcrn: GtcrnModelConfig.Config, n1: Int32, n2: Int32, debug: bool)
    ensures Make(gtcrn, n1, debug) == Make(gtcrn, n2, debug)
    ensures Make(gtcrn, n1, debug).gtcrn.numThreads == gtcrn.numThreads
    ensures Make(gtcrn, n1, debug).useVulkanCompute
  {
  }

  const DebugOption: OptionEntry := OptionEntry("debug", "true to print model information while loading it.")

  /** Registration: the GTCRN options first, then "debug". */
  function Register(po: seq<OptionEntry>): (r: seq<OptionEntry>)
    ensures |r| == |po| + 4 && r[..|po|] == po
    ensures Names(r[|po|..]) == ["speech-denoiser-gtcrn-param", "speech-denoiser-gtcrn-bin", "speech-denoiser-gtcrn-num-threads", "debug"]
  {
    var g := GtcrnModelConfig.Register(po);
    assert Names((g + [DebugOption])[|po|..]) == Names(g[|po|..]) + ["debug"];
    assert (g + [DebugOption])[..|po|] == g[..|po|];
    g + [DebugOption]
  }

  /** Every option is registered once: no name among the four repeats. */
  lemma RegisterNamesDistinct(po: seq<OptionEntry>)
    ensures Distinct(Names(Register(po)[|po|..]))
  {
    var names := Names(Register(po)[|po|..]);
    var lengths := [27, 25, 33, 5];
    assert forall i :: 0 <= i < 4 ==> |names[i]| == lengths[i];
    forall i, j | 0 <= i < j < |names|
      ensures names[i] != names[j]
    {
      assert |names[i]| != |names[j]|;
    }
  }

  /** `Validate()` delegates to the GTCRN part. */
  function Validate(c: Config, fileExists: string -> bool): (ok: bool)
    ensures ok <==> GtcrnModelConfig.Acceptable(c.gtcrn, fileExists)
  {
    GtcrnModelConfig.IsValid(c.gtcrn, fileExists)
  }

  /** Neither the debug flag nor the acceleration preference affects validation. */
  lemma ValidateIgnoresFlags(c: Config, debug: bool, useVulkanCompute: bool, fileExists: string -> bool)
    ensures Validate(c.(debug := debug, useVulkanCompute := useVulkanCompute), fileExists) == Validate(c, fileExists)
  {
  }

  const Head: string := "OfflineSpeechDenoiserModelConfig(gtcrn="
  const TrueTail: string := ", debug=True)"
  const FalseTail: string := ", debug=False)"

  /** How the debug flag closes the rendering: the literal True or False. */
  function Tail(debug: bool): string {
    if debug then TrueTail else FalseTail
  }

  /** The text `ToString()` builds: the head, the GTCRN part's own rendering, and
      straight after it the tail, whose last characters tell the debug flag. The
      acceleration preference is not part of it. */
  function ToString(c: Config): (r: string)
    ensures Head <= r && GtcrnModelConfig.ToString(c.gtcrn) <= r[|Head|..]
    ensures |r| == |Head| + |GtcrnModelConfig.ToString(c.gtcrn)| + |Tail(c.debug)|
    ensures r[|r| - |Tail(c.debug)|..] == Tail(c.debug)
    ensures |r| >= |TrueTail| && (r[|r| - |TrueTail|..] == TrueTail <==> c.debug)
  {
    TailTellsDebug(c.debug);
    RenderedParts(Head, GtcrnModelConfig.ToString(c.gtcrn), Tail(c.debug));
    Head + GtcrnModelConfig.ToString(c.gtcrn) + Tail(c.debug)
  }

  /** The last characters of either tail tell which one it is. */
  lemma TailTellsDebug(debug: bool)
    ensures |Tail(debug)| >= |TrueTail|
    ensures Tail(debug)[|Tail(debug)| - |TrueTail|..] == TrueTail <==> debug
  {
    if !debug {
      assert FalseTail[|FalseTail| - |TrueTail|..][0] != TrueTail[0];
    }
  }

  /** Where the head and the GTCRN part sit in a rendering, and that it ends with
      its tail, for any texts. */
  lemma RenderedParts(head: string, gtcrn: string, tail: string)
    ensures var r := head + gtcrn + tail;
            && head <= r && gtcrn <= r[|head|..]
            && r[|r| - |tail|..] == tail
  {
    var r := head + gtcrn + tail;
    assert r[|head|..] == gtcrn + tail;
  }

  /** Reads back a rendering: the head, the GTCRN rendering, then the debug flag
      spelled "True" or "False". */
  function Parse(s: string): Option<(GtcrnModelConfig.Config, bool)> {
    if !(Head <= s) then None
    else
      var r := s[|Head|..];
      if |r| >= |TrueTail| && r[|r| - |TrueTail|..] == TrueTail then
        ParseGtcrn(r[..|r| - |TrueTail|], true)
      else if |r| >= |FalseTail| && r[|r| - |FalseTail|..] == FalseTail then
        ParseGtcrn(r[..|r| - |FalseTail|], false)
      else None
  }

  function ParseGtcrn(g: string, debug: bool): Option<(GtcrnModelConfig.Config, bool)> {
    match GtcrnModelConfig.Parse(g)
    case Some(gtcrn) => Some((gtcrn, debug))
    case None => None
  }

  lemma ParseSplitsTail(g: string, debug: bool)
    ensures Parse(Head + g + Tail(debug)) == ParseGtcrn(g, debug)
  {
    var tail := Tail(debug);
    var r := (Head + g + tail)[|Head|..];
    assert r == g + tail;
    assert r[|r| - |tail|..] == tail;
    assert r[..|r| - |tail|] == g;
    if !debug {
      assert r[|r| - |TrueTail|..] != TrueTail by {
        assert r[|r| - |TrueTail|] == FalseTail[1] == ' ';
      }
    }
  }

  /** The rendering keeps the GTCRN part and the debug flag (paths without double
      quotes), and nothing else. */
  lemma ParseToString(c: Config)
    requires GtcrnModelConfig.Unquoted(c.gtcrn.param) && GtcrnModelConfig.Unquoted(c.gtcrn.bin)
    ensures Parse(ToString(c)) == Some((c.gtcrn, c.debug))
  {
    ParseSplitsTail(GtcrnModelConfig.ToString(c.gtcrn), c.debug);
    GtcrnModelConfig.ParseToString(c.gtcrn);
  }

  /** The acceleration preference never shows in the rendering. */
  lemma ToStringIgnoresVulkan(c: Config, useVulkanCompute: bool)
    ensures ToString(c.(useVulkanCompute := useVulkanCompute)) == ToString(c)
  {
  }
}
