# GTCRN offline speech denoiser — control logic in Dafny

This project models the control and data-layout logic of sherpa-ncnn's offline
speech denoiser, which is built on the GTCRN network. It does not model the
signal processing. The model covers:

- `OfflineSpeechDenoiserGtcrnImpl::Run` and `Process`. `Run` decides whether to
  resample and builds the STFT configuration. It then calls the network once per
  STFT frame, in ascending order. The first call gets zero caches, and every later
  call gets the caches the previous call returned. `Run` concatenates the per-frame
  results and tags the audio with the model's sample rate. `Process` packs one
  frame's `n_fft/2+1` bins interleaved (real, imaginary) for the network and unpacks
  the two output rows.
- `OfflineSpeechDenoiserGtcrnModel::Impl`:
  - the three zero caches, shaped from the metadata with the dimensions reversed;
  - the fixed `in0..in3` / `out0..out3` wiring;
  - the thread and Vulkan options;
  - the blob-name scan that fills two four-slot index tables.
- The two model configurations:
  - their defaults and constructors;
  - option registration;
  - the ordered validation chain;
  - the exact `ToString` texts. Each rendering has a parser and a proved round trip.
- The factory. Both `OfflineSpeechDenoiserImpl::Create` overloads pick the GTCRN
  implementation exactly when a param path is given.
- The metadata record and its built-in defaults.

Samples and spectrum values have a generic element type `T`, so no floating-point
reasoning is involved. Four collaborators the code calls but does not define
become function parameters, grouped in `GtcrnImpl.Collaborators`:

- the resampler;
- the STFT;
- the inverse STFT;
- the network step.

`FileExists` is a `string -> bool` parameter. Whether ncnn was built with Vulkan
and the GPU count are parameters. The loaded network is represented by the sequence of its blob names.

The frame loop is a generic fold, `GtcrnImpl.Fold`, over an abstract frame step.
The fold records every model call: the frame index, the caches it was given, and
what it returned. `GtcrnImpl.FrameLoop` specialises the fold to `Process`, and
`GtcrnImpl.EnhanceFrames` is the loop as written, proved equal to the fold.

Modules: `Common`, `Text` (decimal rendering and parsing), `MetaData`,
`GtcrnModelConfig`, `ModelConfig`, `GtcrnModel`, `GtcrnImpl`, `DenoiserImpl`.

## Model

| member | source | states |
|---|---|---|
| MetaData.Default | sherpa-ncnn/csrc/offline-speech-denoiser-gtcrn-model-meta-data.h:16-31 | The default metadata is well shaped: three-entry conv and inter shapes, a two-entry tra shape, no negative extent. A frame has 257 bins. The hop is half the FFT size and the window equals it. The caches hold 16896, 96 and 1056 values. |
| MetaData.DefaultIsSqrtHannAt16k | sherpa-ncnn/csrc/offline-speech-denoiser-gtcrn-model-meta-data.h:17-22 | The defaults are 16000 Hz, a 512-point FFT, hop 256, window 512 and window type "hann_sqrt". |
| MetaData.Bins | sherpa-ncnn/csrc/offline-speech-denoiser-gtcrn-impl.h:149 | `n_fft/2+1` is the one-sided bin count: twice (bins-1) is `n_fft` rounded down to even. |
| GtcrnModelConfig.Default | sherpa-ncnn/csrc/offline-speech-denoiser-gtcrn-model-config.h:13-17 | Both paths default to empty and the thread count defaults to 1. |
| GtcrnModelConfig.Register | sherpa-ncnn/csrc/offline-speech-denoiser-gtcrn-model-config.cc:14-23 | Registration keeps the existing options and appends exactly the param, bin and num-threads options, in that order, each with its help text. |
| GtcrnModelConfig.Validate | sherpa-ncnn/csrc/offline-speech-denoiser-gtcrn-model-config.cc:25-52 | Validation succeeds iff both paths are non-empty, both exist and there is at least one thread. On failure, the reported check fails and every earlier check passes. An empty param fails before any file is probed. No empty path is ever probed. The bin file is probed only after the param file was found. |
| GtcrnModelConfig.IsValid | sherpa-ncnn/csrc/offline-speech-denoiser-gtcrn-model-config.cc:25-52 | The boolean `Validate()` is true iff both paths are non-empty, both files exist and there is at least one thread. |
| GtcrnModelConfig.ThreadCountRejectedAfterFiles | sherpa-ncnn/csrc/offline-speech-denoiser-gtcrn-model-config.cc:41-51 | With both files present, a thread count below one is still rejected, by the last check, after both files were probed. |
| GtcrnModelConfig.ConstructorDoesNotCheck | sherpa-ncnn/csrc/offline-speech-denoiser-gtcrn-model-config.h:17-22 | The default value and a zero-thread value can both be constructed; only validation rejects them, with the empty-param and thread-count failures. |
| GtcrnModelConfig.ToString | sherpa-ncnn/csrc/offline-speech-denoiser-gtcrn-model-config.cc:54-63 | The text is `OfflineSpeechDenoiserGtcrnModelConfig(param="` followed by the param path, then `", bin="` and the bin path, then `", num_threads=`, the thread count in canonical decimal (no leading zeros, a minus sign only for negatives), and `)`. The decimal reads back as the same thread count. |
| GtcrnModelConfig.ParseToString | sherpa-ncnn/csrc/offline-speech-denoiser-gtcrn-model-config.cc:54-63 | Reading the rendering back gives the configuration again, for paths without a double quote. |
| GtcrnModelConfig.ToStringInjective | sherpa-ncnn/csrc/offline-speech-denoiser-gtcrn-model-config.cc:54-63 | Two configurations with quote-free paths that render alike are equal. |
| ModelConfig.Default | sherpa-ncnn/csrc/offline-speech-denoiser-model-config.h:14-21 | The default has the default GTCRN part, debug off and Vulkan requested. |
| ModelConfig.Make | sherpa-ncnn/csrc/offline-speech-denoiser-model-config.h:23-25 | The three-argument constructor differs from the default only in `gtcrn` and `debug`. |
| ModelConfig.MakeDiscardsThreadCount | sherpa-ncnn/csrc/offline-speech-denoiser-model-config.h:23-25 | The constructor's thread-count argument has no effect. The GTCRN part keeps its own count and Vulkan stays requested. |
| ModelConfig.Register | sherpa-ncnn/csrc/offline-speech-denoiser-model-config.cc:11-16 | Registration keeps the existing options and appends the three GTCRN options, then "debug". |
| ModelConfig.RegisterNamesDistinct | sherpa-ncnn/csrc/offline-speech-denoiser-model-config.cc:11-16 | The four registered names are pairwise different. |
| ModelConfig.Validate | sherpa-ncnn/csrc/offline-speech-denoiser-model-config.cc:18-20 | Validation succeeds exactly when the GTCRN part is acceptable. |
| ModelConfig.ValidateIgnoresFlags | sherpa-ncnn/csrc/offline-speech-denoiser-model-config.cc:18-20 | Changing `debug` or `use_vulkan_compute` never changes the verdict. |
| ModelConfig.ToString | sherpa-ncnn/csrc/offline-speech-denoiser-model-config.cc:22-30 | The text is `OfflineSpeechDenoiserModelConfig(gtcrn=`, then the GTCRN part's own rendering, then straight after it `, debug=True)` when debug is on and `, debug=False)` when it is off, and nothing else. It ends in `, debug=True)` exactly when debug is on. |
| ModelConfig.ParseToString | sherpa-ncnn/csrc/offline-speech-denoiser-model-config.cc:22-30 | The rendering can be read back into the GTCRN part and the debug flag, the latter spelled True or False (quote-free paths). |
| ModelConfig.ToStringIgnoresVulkan | sherpa-ncnn/csrc/offline-speech-denoiser-model-config.cc:22-30 | The rendering does not depend on `use_vulkan_compute`. |
| GtcrnModel.GetInitStates | sherpa-ncnn/csrc/offline-speech-denoiser-gtcrn-model.cc:44-64 | The result is exactly three caches: conv, tra, inter. Each cache has its metadata shape reversed into (w, h, c), holds as many values as the shape's product, and is all zero. |
| GtcrnModel.Inputs | sherpa-ncnn/csrc/offline-speech-denoiser-gtcrn-model.cc:75-78 | The frame goes in as `in0` and cache k as `in(k+1)`, four inputs in that order. |
| GtcrnModel.Run | sherpa-ncnn/csrc/offline-speech-denoiser-gtcrn-model.cc:66-113 | The frame output is `out0` and next cache k is `out(k+1)` of the network fed those inputs. There are always three next caches. |
| GtcrnModel.HasGpu | sherpa-ncnn/csrc/offline-speech-denoiser-gtcrn-model.cc:119-122 | Without a Vulkan build there is never a GPU, whatever the device count. With one, there is a GPU iff the device count is positive. |
| GtcrnModel.Init | sherpa-ncnn/csrc/offline-speech-denoiser-gtcrn-model.cc:116-132 | The thread count is copied from the configuration. Vulkan is switched on iff a GPU is present and requested; otherwise the option keeps its previous value. |
| GtcrnModel.MatchIndexed | sherpa-ncnn/csrc/offline-speech-denoiser-gtcrn-model.cc:153-163 | A name matches iff it is the prefix followed by one or more decimal digits, with nothing else. The match yields the digits' value. |
| GtcrnModel.Classify | sherpa-ncnn/csrc/offline-speech-denoiser-gtcrn-model.cc:153-166 | A blob name is input k iff it is `in` followed by digits of value k, and output k iff it is `out` followed by digits of value k. The two patterns never both match, so trying `in` first changes nothing. |
| GtcrnModel.ClassifyBlobName | sherpa-ncnn/csrc/offline-speech-denoiser-gtcrn-model.cc:153-165 | For every k, the scan files `in<k>` as input k and `out<k>` as output k. |
| GtcrnModel.PartialMatchesIgnored | sherpa-ncnn/csrc/offline-speech-denoiser-gtcrn-model.cc:157-166 | "in0x", a bare "in" and "xout1" fill no slot. |
| GtcrnModel.LastMatch | sherpa-ncnn/csrc/offline-speech-denoiser-gtcrn-model.cc:157-165 | Reference for "later wins": the position found holds the kind and no later position does. Nothing is found iff the kind is absent. |
| GtcrnModel.InitInputOutputIndexes | sherpa-ncnn/csrc/offline-speech-denoiser-gtcrn-model.cc:134-167 | Both tables have four slots. Each slot holds the last blob position that matched it, or zero when none did. |
| GtcrnModel.NewModel | sherpa-ncnn/csrc/offline-speech-denoiser-gtcrn-model.cc:21-28 | A new model keeps the configuration and carries the default metadata. Its thread count comes from the configuration. Vulkan is switched on iff ncnn was built with Vulkan, a GPU is found and the configuration asks for it; otherwise the option keeps its value. Its tables are those the scan fills. |
| GtcrnImpl.StftConfigFor | sherpa-ncnn/csrc/offline-speech-denoiser-gtcrn-impl.h:70-81 | The FFT size, hop, window length and window type are copied from the metadata. An explicit window is set iff the type is "hann_sqrt", and it is the square root of a Hann window of the window length. |
| GtcrnImpl.Prepare | sherpa-ncnn/csrc/offline-speech-denoiser-gtcrn-impl.h:52-68 | A resampler is built iff the input rate differs from the model's. Without one, the samples pass through unchanged. With one, it goes from the input rate to the model rate with filter width 6 and a cutoff of 0.99·0.5·min(rates); its output replaces the samples. For positive rates the cutoff lies strictly between 0 and half of either rate. |
| GtcrnImpl.OffsetIsProduct | sherpa-ncnn/csrc/offline-speech-denoiser-gtcrn-impl.h:152-155 | Frame i starts at `i * (n_fft/2+1)`. |
| GtcrnImpl.PackedInput | sherpa-ncnn/csrc/offline-speech-denoiser-gtcrn-impl.h:149-164 | The packed frame is a 3-D (2, 1, bins) tensor. Position 2i holds the frame's real part of bin i and position 2i+1 its imaginary part. |
| GtcrnImpl.PackFrame | sherpa-ncnn/csrc/offline-speech-denoiser-gtcrn-impl.h:157-165 | The loop as written fills exactly that interleaving, and its counter ends at twice the bin count. |
| GtcrnImpl.Unpack | sherpa-ncnn/csrc/offline-speech-denoiser-gtcrn-impl.h:170-178 | The real parts are output row 0 and the imaginary parts row 1, each exactly `n_fft/2+1` long, given that the output row width is the bin count. |
| GtcrnImpl.UnpackPlanarPacked | sherpa-ncnn/csrc/offline-speech-denoiser-gtcrn-impl.h:157-176 | Packing and unpacking are inverse: a network that returns the packed frame in planar rows yields exactly that frame's slices. |
| GtcrnImpl.Process | sherpa-ncnn/csrc/offline-speech-denoiser-gtcrn-impl.h:142-179 | One frame yields `bins` real and `bins` imaginary values. The real parts are row 0 and the imaginary parts row 1 of the network's output for the packed frame and the given caches. The next caches are the ones the network returned for that call. |
| GtcrnImpl.ProcessReadsOnlyItsFrame | sherpa-ncnn/csrc/offline-speech-denoiser-gtcrn-impl.h:152-164 | Two spectra that agree on the frame's slice give the same `Process` result. |
| GtcrnImpl.FramesFitIff | sherpa-ncnn/csrc/offline-speech-denoiser-gtcrn-impl.h:152-155 | Every visited frame is in bounds iff frame count times bins fits in both parts. |
| GtcrnImpl.Fold | sherpa-ncnn/csrc/offline-speech-denoiser-gtcrn-impl.h:113-127 | Exactly one call per frame, call i on frame i. Call 0 gets the initial caches, call i+1 the caches call i returned, and the final caches are the last call's. The enhanced parts are the per-call outputs concatenated in order. |
| GtcrnImpl.FoldNext | sherpa-ncnn/csrc/offline-speech-denoiser-gtcrn-impl.h:118-127 | One more frame appends exactly one call's output and replaces the caches by the ones it returned. |
| GtcrnImpl.ConcatUniform | sherpa-ncnn/csrc/offline-speech-denoiser-gtcrn-impl.h:122-125 | Appending equal-length pieces puts piece i exactly at frame i's offset, and the total length is count times bins. |
| GtcrnImpl.FrameLoop | sherpa-ncnn/csrc/offline-speech-denoiser-gtcrn-impl.h:118-125 | In the denoiser's frame loop, call i is `Process` on frame i with the caches the fold gave it. The enhanced parts hold `num_frames * bins` values each. |
| GtcrnImpl.Enhance | sherpa-ncnn/csrc/offline-speech-denoiser-gtcrn-impl.h:116-127 | The enhanced spectrum keeps the input's frame count. Its parts are the frame loop's per-call outputs concatenated in frame order, frame count times bins values each. |
| GtcrnImpl.EnhanceFrames | sherpa-ncnn/csrc/offline-speech-denoiser-gtcrn-impl.h:113-127 | The loop as written (caches replaced after each frame, results appended) computes exactly the fold and keeps `num_frames`. |
| GtcrnImpl.RunTraced | sherpa-ncnn/csrc/offline-speech-denoiser-gtcrn-impl.h:45-135 | The run's stages in order: resampling decision, STFT configuration, analysis, frame loop from zero caches, synthesis with the same configuration. The result is tagged with the model's rate. |
| GtcrnImpl.Run | sherpa-ncnn/csrc/offline-speech-denoiser-gtcrn-impl.h:45-135 | The denoised samples are the inverse STFT, at the model's settings, of the enhanced spectrum. That spectrum is the frame loop from the zero caches over the STFT of the input, resampled if its rate differs. The audio is tagged with the model's sample rate. |
| GtcrnImpl.GetSampleRate | sherpa-ncnn/csrc/offline-speech-denoiser-gtcrn-impl.h:137-139 | The reported rate is the metadata's rate, 16000 Hz for the built-in defaults. |
| GtcrnImpl.RunTaggedWithModelRate | sherpa-ncnn/csrc/offline-speech-denoiser-gtcrn-impl.h:131-139 | Whatever the input rate, the output's rate is the one `GetSampleRate` reports. |
| GtcrnImpl.RunSkipsResamplerAtModelRate | sherpa-ncnn/csrc/offline-speech-denoiser-gtcrn-impl.h:49-68 | At the model's rate no resampler is built and the samples reach the STFT unchanged, so the result does not depend on the resampler. |
| GtcrnImpl.NetStep | sherpa-ncnn/csrc/offline-speech-denoiser-gtcrn-impl.h:167-168 | The network step the frame loop calls is `GtcrnModel.Run` on the frame and three caches. A network whose `out0` has `bins`-wide rows whenever `in0` has the packed (2, 1, bins) shape gives a step whose output fits on every frame of that shape, and three caches in give three caches out. |
| GtcrnImpl.CallsHaveThreeCaches | sherpa-ncnn/csrc/offline-speech-denoiser-gtcrn-impl.h:113-120 | Starting from three caches with a step that keeps three, every call of the frame loop is given three caches. |
| GtcrnImpl.NetFrameLoop | sherpa-ncnn/csrc/offline-speech-denoiser-gtcrn-model.cc:75-95 | Driven by the network, call i feeds frame i packed as `in0` and its three caches as `in1..in3`. Its output is `out0` unpacked and its next caches are `out1..out3`. |
| GtcrnImpl.RunWiresNetwork | sherpa-ncnn/csrc/offline-speech-denoiser-gtcrn-impl.h:113-120 | In a whole run driven by the network, the first call gets the zero caches and every call is the wired `GtcrnModel.Run` on its frame and caches. |
| GtcrnImpl.RunThreadsStates | sherpa-ncnn/csrc/offline-speech-denoiser-gtcrn-impl.h:113-127 | Within a run, call i processes frame i. The first call gets `GetInitStates`, each later call the caches the previous one returned. The enhanced parts are the calls' outputs in order. |
| DenoiserImpl.Create | sherpa-ncnn/csrc/offline-speech-denoiser-impl.cc:22-29 | An implementation is made iff the param path is non-empty. It is the GTCRN implementation over the configuration's model part, loading from files. |
| DenoiserImpl.CreateFrom | sherpa-ncnn/csrc/offline-speech-denoiser-impl.cc:31-39 | The same rule for the asset-manager overload, with the manager handed on. |
| DenoiserImpl.CreateDependsOnlyOnParam | sherpa-ncnn/csrc/offline-speech-denoiser-impl.cc:22-29 | Two configurations whose param paths are both empty or both non-empty get the same decision. |
| DenoiserImpl.CreateDoesNotValidate | sherpa-ncnn/csrc/offline-speech-denoiser-impl.cc:22-29 | A configuration with no bin path and no threads still yields an implementation, though validation rejects it. |
| DenoiserImpl.OverloadsAgree | sherpa-ncnn/csrc/offline-speech-denoiser-impl.cc:22-39 | Both overloads decide alike and pass on the same model configuration; only the file source differs. |

## Left out

- The ncnn engine. Network loading (`Model::InitNet`), the extractor and inference are a function parameter, and a loaded network is given by its blob names.
- The ncnn `Mat` memory layout. Both the live `x.row(i)[0]`/`[1]` writes and the commented-out `px[2 * i]`/`px[2 * i + 1]` lines put bin i's two values at flat positions 2i and 2i+1 of the buffer, because `px` is `data` and `x.row(i)` is `data + 2 * i`. The model drops the channel padding, so in the model channel k holds bin k. In ncnn a (2, 1, 257) float `Mat` has channel stride 4. So channel k really holds bin 2k, the odd bins fall into channel padding, and channels 129 to 256 are never written. Output rows are modelled as read at multiples of the row width.
- STFT, inverse STFT, `knf::GetWindow` and the square root of the window. These are kaldi-native-fbank floating-point code outside this model; only the configuration handed to them is modelled.
- `LinearResample`. Only the decision to build one and its constructor arguments are modelled; the resampler itself is a parameter. The `flush = true` argument that `Resample` is called with (offline-speech-denoiser-gtcrn-impl.h:65) is not modelled.
- Prepare: the cutoff is an exact real. The C++ code computes `0.99 * 0.5 * min_freq` in floating point, so the `200 * cutoff == 99 * min` equation holds only up to rounding there.
- The `./x.bin` block in `Run` (offline-speech-denoiser-gtcrn-impl.h:88-111). It overwrites the spectrum with a file's contents and resizes it without updating `num_frames`, and its `printf` calls are console output. Because of it the spectrum size is not tied to the frame count, so the model requires that the STFT, at the model's settings, return enough values for every frame (`GtcrnImpl.StftFits`).
- `MySum` and every `NCNN_LOGE` / `printf` call. They are logging only, so the validation error messages become the `GtcrnModelConfig.ConfigError` constructor that names the failing check.
- `int32_t` overflow of the frame offset `frame_index * (n_fft / 2 + 1)`. The model's offsets are unbounded naturals, bounded in practice by the in-bounds precondition.
- GtcrnImpl.Unpack: the output width must equal the bin count (`GtcrnImpl.OutputFits`). The code also accepts a narrower output. It then copies only `w` real parts, leaving the rest of `real` at zero, and reads the `n_fft/2+1` imaginary parts starting at `row(1)`, which sits at offset `w`, past the end of the second row. A wider output overruns `real`, so it has no defined result.
- GtcrnImpl.NetStep: a cache count other than three never occurs in a run. For such counts the model feeds the frame alone, only to keep the step total.
- GtcrnModel.InitInputOutputIndexes: a blob index of 4 or more, which `InitInputOutputIndexes` writes out of bounds, is excluded by a precondition (`GtcrnModel.IndexInRange`), and so is `atoi` overflow on long digit strings.
- GtcrnModel.NewModel: loading the files is not modelled. The C++ code never reads the metadata from them either; every model carries the defaults.
- GtcrnModelConfig.ParseToString, GtcrnModelConfig.ToStringInjective, ModelConfig.ParseToString: paths containing a double quote are excluded. The rendering does not escape them, so the text is then ambiguous.
- `FileExists` is a parameter, not a file-system query. Whether ncnn was built with Vulkan and what `ncnn::get_gpu_count()` returns are parameters of `GtcrnModel.NewModel`.
- The denoiser configuration struct that `Create` reads is not part of this model beyond its `model` field.
- The platform asset-manager types are a type parameter `M`.
- The registration of options models only names and help texts; the parser that fills the fields is not part of this model.
