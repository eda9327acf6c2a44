/** The denoiser factory: the two `Create` overloads that pick the implementation
    from the configuration. */
module DenoiserImpl {
  import opened Common
  import GtcrnModelConfig
  import ModelConfig

  /** The denoiser configuration. Only its model part is read by the factory; the
      header that declares the full struct is not part of this model. */
  datatype DenoiserConfig = DenoiserConfig(model: ModelConfig.Config)

  /** Where the implementation loads its model files from: the file system, or an
      asset manager of some platform-specific type `M`. */
  datatype ModelSource<M> = FromFiles | FromAssets(manager: M)

  /** The one implementation there is: GTCRN, built from the model part of the
      configuration and loading its files from the given source. */
  datatype Impl<M> = GtcrnImpl(source: ModelSource<M>, model: ModelConfig.Config)

  /** The file-system `Create`: a GTCRN implementation exactly when a param path is
      given, and nothing otherwise. */
  function Create<M>(config: DenoiserConfig): (r: Option<Impl<M>>)
    ensures r.Some? <==> config.model.gtcrn.param != []
    ensures r.Some? ==> r.value == GtcrnImpl(FromFiles, config.model)
  {
    if config.model.gtcrn.param != [] then Some(GtcrnImpl(FromFiles, config.model)) else None
  }

  /** The asset-manager `Create`: the same choice, with the manager passed on. */
  function CreateFrom<M>(manager: M, config: DenoiserConfig): (r: Option<Impl<M>>)
    ensures r.Some? <==> config.model.gtcrn.param != []
    ensures r.Some? ==> r.value == GtcrnImpl(FromAssets(manager), config.model)
  {
    if config.model.gtcrn.param != [] then Some(GtcrnImpl(FromAssets(manager), config.model)) else None
  }

  /** Whether an implementation is made depends on nothing but whether the param
      path is empty. */
  lemma CreateDependsOnlyOnParam<M>(c1: DenoiserConfig, c2: DenoiserConfig)
    requires (c1.model.gtcrn.param == []) == (c2.model.gtcrn.param == [])
    ensures (Create<M>(c1).Some?) == (Create<M>(c2).Some?)
  {
  }

  /** The factory does not validate: a configuration that validation rejects (no bin
      path, no threads) still yields an implementation, whatever files exist. */
  lemma CreateDoesNotValidate<M>(fileExists: string -> bool)
    ensures var c := DenoiserConfig(ModelConfig.Default().(gtcrn := GtcrnModelConfig.Config("gtcrn.ncnn.param", "", 0)));
            && Create<M>(c).Some?
            && !ModelConfig.Validate(c.model, fileExists)
  {
  }

  /** Both overloads make the same choice and hand the implementation the same model
      configuration; they differ only in where the files come from. */
  lemma OverloadsAgree<M>(manager: M, config: DenoiserConfig)
    ensures Create<M>(config).Some? == CreateFrom(manager, config).Some?
    ensures Create<M>(config).Some? ==>
              && Create<M>(config).value.model == CreateFrom(manager, config).value.model
              && CreateFrom(manager, config).value.source == FromAssets(manager)
  {
  }
}
