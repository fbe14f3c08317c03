/**
  `create_input_reader`: choose the reader strategy named by the input config,
  registering a built-in reader on first use, and build it with the config's
  dumped fields plus the storage to read from.
*/
module InputReaderFactory {
  import opened Wrappers
  import opened Factory

  /** `InputType`; `OtherInput` stands for any other type string. */
  datatype InputType = Csv | Text | Json | JsonLines | MarkItDown | OtherInput(name: string)

  datatype ReaderInitializer =
    | CSVFileReader
    | TextFileReader
    | JSONFileReader
    | JSONLinesFileReader
    | MarkItDownFileReader
    | CustomReader(name: string)

  /** The storage the reader reads files from; not interpreted here. */
  datatype Storage = Storage(name: string)

  /** The input config: its type and what `model_dump()` returns for it, with every
      dumped value kept as its text. */
  datatype InputConfig = InputConfig(inputType: InputType, dump: map<string, string>)

  /** One value of the `init_args` dictionary. */
  datatype ReaderArg = DumpedArg(value: string) | StorageArg(storage: Storage)

  const StorageKey: string := "storage"

  /** The reader a built-in input type is registered with on first use. */
  function BuiltinReader(strategy: InputType): Option<ReaderInitializer>
  {
    match strategy
    case Csv => Some(CSVFileReader)
    case Text => Some(TextFileReader)
    case Json => Some(JSONFileReader)
    case JsonLines => Some(JSONLinesFileReader)
    case MarkItDown => Some(MarkItDownFileReader)
    case OtherInput(_) => None
  }

  /** The registrations after the dispatch of `create_input_reader`: a built-in
      reader is registered with the default transient scope. */
  function ReaderRegistryAfter(registrations: map<InputType, Registration<ReaderInitializer>>, strategy: InputType)
    : map<InputType, Registration<ReaderInitializer>>
  {
    if strategy in registrations then registrations
    else match BuiltinReader(strategy)
      case Some(reader) => registrations[strategy := Registration(reader, Transient)]
      case None => registrations
  }

  /** `config.model_dump()` as init arguments. */
  function DumpArgs(config: InputConfig): (args: map<string, ReaderArg>)
    ensures args.Keys == config.dump.Keys
    ensures forall k :: k in args ==> args[k] == DumpedArg(config.dump[k])
  {
    map k | k in config.dump :: DumpedArg(config.dump[k])
  }

  /** The `init_args` of `create_input_reader`. */
  function ReaderInitArgs(config: InputConfig, storage: Storage): map<string, ReaderArg>
  {
    DumpArgs(config)[StorageKey := StorageArg(storage)]
  }

  /** What `create_input_reader` builds, or why it fails, given the registrations it
      starts from. */
  function CreateInputReaderSpec(
    registrations: map<InputType, Registration<ReaderInitializer>>,
    config: InputConfig,
    storage: Storage): Result<Creation<ReaderInitializer, map<string, ReaderArg>>, FactoryError<InputType>>
  {
    var after := ReaderRegistryAfter(registrations, config.inputType);
    if config.inputType in after then
      var registration := after[config.inputType];
      Ok(Creation(registration.initializer, registration.scope, ReaderInitArgs(config, storage)))
    else Err(NotRegistered(config.inputType, registrations.Keys))
  }

  /** `register_input_reader`, with the default transient scope. */
  method RegisterInputReader(
    factory: Factory<InputType, ReaderInitializer>,
    inputReaderType: InputType,
    inputReaderInitializer: ReaderInitializer,
    scope: ServiceScope := Transient)
    modifies factory
    ensures factory.registrations == old(factory.registrations)[inputReaderType := Registration(inputReaderInitializer, scope)]
  {
    factory.Register(inputReaderType, inputReaderInitializer, scope);
  }

  /** `create_input_reader`: dump the config, register a built-in reader on first use
      or fail on an unknown type, set the storage, and let the registry build the
      reader. */
  method CreateInputReader(factory: Factory<InputType, ReaderInitializer>, config: InputConfig, storage: Storage)
    returns (r: Result<Creation<ReaderInitializer, map<string, ReaderArg>>, FactoryError<InputType>>)
    modifies factory
    ensures factory.registrations == ReaderRegistryAfter(old(factory.registrations), config.inputType)
    ensures r == CreateInputReaderSpec(old(factory.registrations), config, storage)
  {
    var configModel := DumpArgs(config);
    var inputStrategy := config.inputType;
    if !factory.Contains(inputStrategy) {
      match inputStrategy {
        case Csv =>
          RegisterInputReader(factory, Csv, CSVFileReader);
        case Text =>
          RegisterInputReader(factory, Text, TextFileReader);
        case Json =>
          RegisterInputReader(factory, Json, JSONFileReader);
        case JsonLines =>
          RegisterInputReader(factory, JsonLines, JSONLinesFileReader);
        case MarkItDown =>
          RegisterInputReader(factory, MarkItDown, MarkItDownFileReader);
        case OtherInput(_) =>
          return Err(NotRegistered(inputStrategy, factory.registrations.Keys));
      }
    }
    configModel := configModel[StorageKey := StorageArg(storage)];
    r := Ok(factory.Create(inputStrategy, configModel));
  }

  /** An unregistered type that is not built in fails and leaves the registry as it
      was. */
  lemma UnknownInputTypeFails(
    registrations: map<InputType, Registration<ReaderInitializer>>,
    config: InputConfig,
    storage: Storage)
    requires config.inputType !in registrations && config.inputType.OtherInput?
    ensures CreateInputReaderSpec(registrations, config, storage) == Err(NotRegistered(config.inputType, registrations.Keys))
    ensures ReaderRegistryAfter(registrations, config.inputType) == registrations
  {
  }

  /** A registered type, a custom override of a built-in included, is used as
      registered and not registered again. */
  lemma RegisteredReaderUsedAsIs(
    registrations: map<InputType, Registration<ReaderInitializer>>,
    config: InputConfig,
    storage: Storage)
    requires config.inputType in registrations
    ensures ReaderRegistryAfter(registrations, config.inputType) == registrations
    ensures CreateInputReaderSpec(registrations, config, storage).Ok?
    ensures CreateInputReaderSpec(registrations, config, storage).value.initializer
      == registrations[config.inputType].initializer
    ensures CreateInputReaderSpec(registrations, config, storage).value.scope
      == registrations[config.inputType].scope
  {
  }

  /** On first use each built-in type is registered, transient, with its own reader;
      no other type's registration changes. */
  lemma BuiltinReadersRegisteredOnFirstUse(registrations: map<InputType, Registration<ReaderInitializer>>, strategy: InputType)
    requires strategy !in registrations && !strategy.OtherInput?
    ensures strategy in ReaderRegistryAfter(registrations, strategy)
    ensures ReaderRegistryAfter(registrations, strategy)[strategy].scope == Transient
    ensures strategy == Csv ==> ReaderRegistryAfter(registrations, strategy)[strategy].initializer == CSVFileReader
    ensures strategy == Text ==> ReaderRegistryAfter(registrations, strategy)[strategy].initializer == TextFileReader
    ensures strategy == Json ==> ReaderRegistryAfter(registrations, strategy)[strategy].initializer == JSONFileReader
    ensures strategy == JsonLines ==> ReaderRegistryAfter(registrations, strategy)[strategy].initializer == JSONLinesFileReader
    ensures strategy == MarkItDown ==> ReaderRegistryAfter(registrations, strategy)[strategy].initializer == MarkItDownFileReader
    ensures forall s :: s != strategy ==>
      (s in ReaderRegistryAfter(registrations, strategy) <==> s in registrations)
      && (s in registrations ==> ReaderRegistryAfter(registrations, strategy)[s] == registrations[s])
  {
  }

  /** Every built-in type gets a reader of its own. */
  lemma BuiltinReadersDistinct(a: InputType, b: InputType)
    requires BuiltinReader(a).Some? && BuiltinReader(b).Some? && a != b
    ensures BuiltinReader(a) != BuiltinReader(b)
  {
  }

  /** A second call finds the type registered by the first: the registry does not
      change again and the same reader is built. */
  lemma ReaderDispatchIdempotent(
    registrations: map<InputType, Registration<ReaderInitializer>>,
    config: InputConfig,
    storage: Storage)
    ensures
      var after := ReaderRegistryAfter(registrations, config.inputType);
      && ReaderRegistryAfter(after, config.inputType) == after
      && (CreateInputReaderSpec(registrations, config, storage).Ok? ==>
            CreateInputReaderSpec(after, config, storage) == CreateInputReaderSpec(registrations, config, storage))
  {
  }

  /** The passed storage overrides any dumped `storage` field; every other dumped
      field is passed through and nothing else is added. */
  lemma StorageInitArg(config: InputConfig, storage: Storage)
    ensures
      var args := ReaderInitArgs(config, storage);
      && args.Keys == config.dump.Keys + {StorageKey}
      && args[StorageKey] == StorageArg(storage)
      && (forall k :: k in config.dump && k != StorageKey ==> args[k] == DumpedArg(config.dump[k]))
  {
  }
}
