/**
  `create_completion`: choose the completion strategy named by the model config,
  registering a built-in strategy on first use, and assemble the init arguments:
  the model id, the optional collaborators (rate limiter, retrier, metrics) and
  the caller's cache settings, laid over the config's extra fields.
*/
module CompletionFactory {
  import opened Wrappers
  import opened Factory

  /** `LLMProviderType`; `OtherProvider` stands for any other type string. */
  datatype ProviderType = LiteLLM | MockLLM | OtherProvider(name: string)

  datatype CompletionInitializer = LiteLLMCompletion | MockLLMCompletion | CustomCompletion(name: string)

  /** The settings of the optional model config sections, not interpreted here. */
  datatype RateLimitConfig = RateLimitConfig(settings: string)
  datatype RetryConfig = RetryConfig(settings: string)
  datatype MetricsConfig = MetricsConfig(settings: string)

  datatype ModelConfig = ModelConfig(
    providerType: ProviderType,
    modelProvider: string,
    model: string,
    modelExtra: Option<map<string, string>>,
    rateLimit: Option<RateLimitConfig>,
    retry: Option<RetryConfig>,
    metrics: Option<MetricsConfig>)

  /** The collaborators a completion is built with. */
  datatype Tokenizer = ProvidedTokenizer(name: string) | TokenizerFor(modelId: string)
  datatype Cache = Cache(name: string)
  datatype CacheKeyCreator = CreateCacheKey | CustomCacheKeyCreator(name: string)
  datatype RateLimiter = RateLimiterFor(config: RateLimitConfig)
  datatype Retrier = RetrierFor(config: RetryConfig)
  datatype MetricsStore = NoopMetricsStore | MetricsStoreFor(config: MetricsConfig, id: string)
  datatype MetricsProcessor = MetricsProcessorFor(config: MetricsConfig)

  /** One value of the `init_args` dictionary. */
  datatype InitArg =
    | ExtraArg(value: string)
    | ModelIdArg(modelId: string)
    | ModelConfigArg(config: ModelConfig)
    | TokenizerArg(tokenizer: Tokenizer)
    | MetricsStoreArg(store: MetricsStore)
    | MetricsProcessorArg(processor: Option<MetricsProcessor>)
    | RateLimiterArg(limiter: Option<RateLimiter>)
    | RetrierArg(retrier: Option<Retrier>)
    | CacheArg(cache: Option<Cache>)
    | CacheKeyCreatorArg(creator: CacheKeyCreator)

  /** The nine keys `create_completion` always sets. */
  const NamedKeys: set<string> := {
    "model_id", "model_config", "tokenizer", "metrics_store", "metrics_processor",
    "rate_limiter", "retrier", "cache", "cache_key_creator"
  }

  /** `f"{model_provider}/{model}"`. */
  function ModelId(config: ModelConfig): string
  {
    config.modelProvider + "/" + config.model
  }

  /** The provider and the model can be read back from the model id. */
  lemma ModelIdParts(config: ModelConfig)
    ensures |ModelId(config)| == |config.modelProvider| + 1 + |config.model|
    ensures ModelId(config)[..|config.modelProvider|] == config.modelProvider
    ensures ModelId(config)[|config.modelProvider|] == '/'
    ensures ModelId(config)[|config.modelProvider| + 1..] == config.model
  {
  }

  /** The registration a built-in strategy gets on first use: LiteLLM as a singleton,
      MockLLM with the default transient scope. */
  function BuiltinRegistration(strategy: ProviderType): Option<Registration<CompletionInitializer>>
  {
    match strategy
    case LiteLLM => Some(Registration(LiteLLMCompletion, Singleton))
    case MockLLM => Some(Registration(MockLLMCompletion, Transient))
    case OtherProvider(_) => None
  }

  /** The registrations after the dispatch of `create_completion`. */
  function RegistryAfter(registrations: map<ProviderType, Registration<CompletionInitializer>>, strategy: ProviderType)
    : map<ProviderType, Registration<CompletionInitializer>>
  {
    if strategy in registrations then registrations
    else match BuiltinRegistration(strategy)
      case Some(registration) => registrations[strategy := registration]
      case None => registrations
  }

  function RateLimiterOf(config: ModelConfig): Option<RateLimiter>
  {
    if config.rateLimit.Some? then Some(RateLimiterFor(config.rateLimit.value)) else None
  }

  function RetrierOf(config: ModelConfig): Option<Retrier>
  {
    if config.retry.Some? then Some(RetrierFor(config.retry.value)) else None
  }

  function MetricsStoreOf(config: ModelConfig): MetricsStore
  {
    if config.metrics.Some? then MetricsStoreFor(config.metrics.value, ModelId(config)) else NoopMetricsStore
  }

  function MetricsProcessorOf(config: ModelConfig): Option<MetricsProcessor>
  {
    if config.metrics.Some? then Some(MetricsProcessorFor(config.metrics.value)) else None
  }

  /** `model_extra or {}` as init arguments. */
  function ExtraArgs(config: ModelConfig): (extra: map<string, InitArg>)
    ensures config.modelExtra.None? ==> extra == map[]
    ensures config.modelExtra.Some? ==>
      extra.Keys == config.modelExtra.value.Keys
      && forall k :: k in extra ==> extra[k] == ExtraArg(config.modelExtra.value[k])
  {
    if config.modelExtra.Some? then map k | k in config.modelExtra.value :: ExtraArg(config.modelExtra.value[k])
    else map[]
  }

  /** The value `create_completion` sets for one of the named keys. */
  function NamedArg(
    key: string,
    config: ModelConfig,
    cache: Option<Cache>,
    cacheKeyCreator: Option<CacheKeyCreator>,
    tokenizer: Option<Tokenizer>): InitArg
    requires key in NamedKeys
  {
    if key == "model_id" then ModelIdArg(ModelId(config))
    else if key == "model_config" then ModelConfigArg(config)
    else if key == "tokenizer" then TokenizerArg(if tokenizer.Some? then tokenizer.value else TokenizerFor(ModelId(config)))
    else if key == "metrics_store" then MetricsStoreArg(MetricsStoreOf(config))
    else if key == "metrics_processor" then MetricsProcessorArg(MetricsProcessorOf(config))
    else if key == "rate_limiter" then RateLimiterArg(RateLimiterOf(config))
    else if key == "retrier" then RetrierArg(RetrierOf(config))
    else if key == "cache" then CacheArg(cache)
    else CacheKeyCreatorArg(cacheKeyCreator.GetOr(CreateCacheKey))
  }

  /** The `init_args` of `create_completion`: the extra fields, overridden by the
      named arguments. */
  function CompletionInitArgs(
    config: ModelConfig,
    cache: Option<Cache>,
    cacheKeyCreator: Option<CacheKeyCreator>,
    tokenizer: Option<Tokenizer>): map<string, InitArg>
  {
    var extra := ExtraArgs(config);
    map k | k in extra.Keys + NamedKeys ::
      if k in NamedKeys then NamedArg(k, config, cache, cacheKeyCreator, tokenizer) else extra[k]
  }

  /** What `create_completion` builds, or why it fails, given the registrations it
      starts from. */
  function CreateCompletionSpec(
    registrations: map<ProviderType, Registration<CompletionInitializer>>,
    config: ModelConfig,
    cache: Option<Cache>,
    cacheKeyCreator: Option<CacheKeyCreator>,
    tokenizer: Option<Tokenizer>): Result<Creation<CompletionInitializer, map<string, InitArg>>, FactoryError<ProviderType>>
  {
    var after := RegistryAfter(registrations, config.providerType);
    if config.providerType in after then
      var registration := after[config.providerType];
      Ok(Creation(registration.initializer, registration.scope, CompletionInitArgs(config, cache, cacheKeyCreator, tokenizer)))
    else Err(NotRegistered(config.providerType, registrations.Keys))
  }

  /** `register_completion`, with the default transient scope. */
  method RegisterCompletion(
    factory: Factory<ProviderType, CompletionInitializer>,
    completionType: ProviderType,
    completionInitializer: CompletionInitializer,
    scope: ServiceScope := Transient)
    modifies factory
    ensures factory.registrations == old(factory.registrations)[completionType := Registration(completionInitializer, scope)]
  {
    factory.Register(completionType, completionInitializer, scope);
  }

  /** `create_completion`: the dispatch registers a built-in strategy on first use and
      fails on an unknown one; then the registry builds the completion. */
  method CreateCompletion(
    factory: Factory<ProviderType, CompletionInitializer>,
    modelConfig: ModelConfig,
    cache: Option<Cache>,
    cacheKeyCreator: Option<CacheKeyCreator>,
    tokenizer: Option<Tokenizer>)
    returns (r: Result<Creation<CompletionInitializer, map<string, InitArg>>, FactoryError<ProviderType>>)
    modifies factory
    ensures factory.registrations == RegistryAfter(old(factory.registrations), modelConfig.providerType)
    ensures r == CreateCompletionSpec(old(factory.registrations), modelConfig, cache, cacheKeyCreator, tokenizer)
  {
    var strategy := modelConfig.providerType;
    if !factory.Contains(strategy) {
      match strategy {
        case LiteLLM =>
          RegisterCompletion(factory, LiteLLM, LiteLLMCompletion, Singleton);
        case MockLLM =>
          RegisterCompletion(factory, MockLLM, MockLLMCompletion);
        case OtherProvider(_) =>
          return Err(NotRegistered(strategy, factory.registrations.Keys));
      }
    }
    var initArgs := CompletionInitArgs(modelConfig, cache, cacheKeyCreator, tokenizer);
    r := Ok(factory.Create(strategy, initArgs));
  }

  /** An unregistered strategy that is not built in fails and leaves the registry as
      it was. */
  lemma UnknownStrategyFails(
    registrations: map<ProviderType, Registration<CompletionInitializer>>,
    config: ModelConfig,
    cache: Option<Cache>,
    cacheKeyCreator: Option<CacheKeyCreator>,
    tokenizer: Option<Tokenizer>)
    requires config.providerType !in registrations && config.providerType.OtherProvider?
    ensures CreateCompletionSpec(registrations, config, cache, cacheKeyCreator, tokenizer)
      == Err(NotRegistered(config.providerType, registrations.Keys))
    ensures RegistryAfter(registrations, config.providerType) == registrations
  {
  }

  /** A registered strategy, a custom override of a built-in included, is used as
      registered and not registered again. */
  lemma RegisteredStrategyUsedAsIs(
    registrations: map<ProviderType, Registration<CompletionInitializer>>,
    config: ModelConfig,
    cache: Option<Cache>,
    cacheKeyCreator: Option<CacheKeyCreator>,
    tokenizer: Option<Tokenizer>)
    requires config.providerType in registrations
    ensures RegistryAfter(registrations, config.providerType) == registrations
    ensures CreateCompletionSpec(registrations, config, cache, cacheKeyCreator, tokenizer).Ok?
    ensures CreateCompletionSpec(registrations, config, cache, cacheKeyCreator, tokenizer).value.initializer
      == registrations[config.providerType].initializer
    ensures CreateCompletionSpec(registrations, config, cache, cacheKeyCreator, tokenizer).value.scope
      == registrations[config.providerType].scope
  {
  }

  /** On first use LiteLLM is registered as a singleton and MockLLM as transient; no
      other strategy's registration changes. */
  lemma BuiltinsRegisteredOnFirstUse(registrations: map<ProviderType, Registration<CompletionInitializer>>, strategy: ProviderType)
    requires strategy !in registrations && !strategy.OtherProvider?
    ensures strategy in RegistryAfter(registrations, strategy)
    ensures strategy == LiteLLM ==> RegistryAfter(registrations, strategy)[strategy] == Registration(LiteLLMCompletion, Singleton)
    ensures strategy == MockLLM ==> RegistryAfter(registrations, strategy)[strategy] == Registration(MockLLMCompletion, Transient)
    ensures forall s :: s != strategy ==>
      (s in RegistryAfter(registrations, strategy) <==> s in registrations)
      && (s in registrations ==> RegistryAfter(registrations, strategy)[s] == registrations[s])
  {
  }

  /** A second call finds the strategy registered by the first: the registry does not
      change again and the same initializer and scope are used. */
  lemma DispatchIdempotent(
    registrations: map<ProviderType, Registration<CompletionInitializer>>,
    config: ModelConfig,
    cache: Option<Cache>,
    cacheKeyCreator: Option<CacheKeyCreator>,
    tokenizer: Option<Tokenizer>)
    ensures
      var after := RegistryAfter(registrations, config.providerType);
      && RegistryAfter(after, config.providerType) == after
      && (CreateCompletionSpec(registrations, config, cache, cacheKeyCreator, tokenizer).Ok? ==>
            CreateCompletionSpec(after, config, cache, cacheKeyCreator, tokenizer)
            == CreateCompletionSpec(registrations, config, cache, cacheKeyCreator, tokenizer))
  {
  }

  /** The model id, the model config and the tokenizer, created for the model id
      unless one is passed. */
  lemma ModelInitArgs(
    config: ModelConfig,
    cache: Option<Cache>,
    cacheKeyCreator: Option<CacheKeyCreator>,
    tokenizer: Option<Tokenizer>)
    ensures
      var args := CompletionInitArgs(config, cache, cacheKeyCreator, tokenizer);
      && args["model_id"] == ModelIdArg(ModelId(config))
      && args["model_config"] == ModelConfigArg(config)
      && args["tokenizer"] == TokenizerArg(if tokenizer.Some? then tokenizer.value else TokenizerFor(ModelId(config)))
  {
  }

  /** The optional collaborators are present exactly when their config section is;
      without metrics the store is the no-op store. */
  lemma OptionalInitArgs(
    config: ModelConfig,
    cache: Option<Cache>,
    cacheKeyCreator: Option<CacheKeyCreator>,
    tokenizer: Option<Tokenizer>)
    ensures
      var args := CompletionInitArgs(config, cache, cacheKeyCreator, tokenizer);
      && (args["rate_limiter"] == RateLimiterArg(None) <==> config.rateLimit.None?)
      && (args["retrier"] == RetrierArg(None) <==> config.retry.None?)
      && (config.metrics.None? <==> args["metrics_store"] == MetricsStoreArg(NoopMetricsStore))
      && (args["metrics_processor"] == MetricsProcessorArg(None) <==> config.metrics.None?)
  {
  }

  /** The cache is passed as given and the cache key creator defaults to
      `create_cache_key`. */
  lemma CacheInitArgs(
    config: ModelConfig,
    cache: Option<Cache>,
    cacheKeyCreator: Option<CacheKeyCreator>,
    tokenizer: Option<Tokenizer>)
    ensures
      var args := CompletionInitArgs(config, cache, cacheKeyCreator, tokenizer);
      && args["cache"] == CacheArg(cache)
      && args["cache_key_creator"] == CacheKeyCreatorArg(if cacheKeyCreator.Some? then cacheKeyCreator.value else CreateCacheKey)
  {
  }

  /** The named arguments override same-named extra fields; every other extra field
      is passed through, and nothing else is added. */
  lemma ExtraInitArgs(
    config: ModelConfig,
    cache: Option<Cache>,
    cacheKeyCreator: Option<CacheKeyCreator>,
    tokenizer: Option<Tokenizer>)
    ensures
      var args := CompletionInitArgs(config, cache, cacheKeyCreator, tokenizer);
      && args.Keys == ExtraArgs(config).Keys + NamedKeys
      && (forall k :: k in ExtraArgs(config) && k !in NamedKeys ==> args[k] == ExtraArgs(config)[k])
      && (forall k :: k in NamedKeys ==> !args[k].ExtraArg?)
  {
  }
}
