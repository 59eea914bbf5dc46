/**
 * Loading the route table at start-up: pick the file or the inline fallback text,
 * process it into routes, and save every route in the cache under its key.
 */
module RouteLoading {

  import opened Wrappers
  import opened Json
  import opened Routes
  import opened RouteParsing
  import opened RouteCache

  /** What the file system gives for the configured path. */
  datatype FileSource =
    | Missing                     // no file at the path
    | ReadError(message: string)  // the file exists but reading its bytes fails
    | Content(payload: Payload)   // the file's text, as a token stream

  /** How a load ends: nothing attempted, routes loaded, or an exception that escaped. */
  datatype LoadOutcome = NotLoaded | Loaded(routes: seq<ConfiguredRoute>) | Failed(failure: Failure)

  function FromProcessed(pr: Processed): LoadOutcome
  {
    match pr
    case Routes(rs) => Loaded(rs)
    case Thrown(f) => Failed(f)
  }

  /** The routes a load saves: none unless it loaded. */
  function LoadedRoutes(o: LoadOutcome): seq<ConfiguredRoute>
  {
    if o.Loaded? then o.routes else []
  }

  /** Source selection: a missing file loads nothing; a file that cannot be read, or whose
      processing raises the technical error, gives way to the fallback text; any other
      outcome of the file's processing stands. The fallback's own outcome is not caught. */
  function Load(file: FileSource, fallback: Payload, mapper: Mapper): LoadOutcome
  {
    match file
    case Missing => NotLoaded
    case ReadError(_) => FromProcessed(ProcessSpec(fallback, mapper))
    case Content(p) =>
      var first := ProcessSpec(p, mapper);
      if first.Thrown? && first.failure.JacksonMapperError?
      then FromProcessed(ProcessSpec(fallback, mapper))
      else FromProcessed(first)
  }

  /** The loader's configuration: the inline fallback routes and the path of the routes file. */
  class RoutesConfig {
    const stringRoutes: Payload
    const fileRoutes: string

    constructor (stringRoutes: Payload, fileRoutes: string)
      ensures this.stringRoutes == stringRoutes && this.fileRoutes == fileRoutes
    {
      this.stringRoutes := stringRoutes;
      this.fileRoutes := fileRoutes;
    }

    /**
     * Loads the routes from the file at `fileRoutes` (as `files` gives it) or from
     * `stringRoutes`, then saves each loaded route under its key, in order.
     */
    method RouteInformationLoaded(mapper: Mapper, files: string -> FileSource, cacheOps: Cache)
      returns (outcome: LoadOutcome)
      modifies cacheOps
      ensures outcome == Load(files(fileRoutes), stringRoutes, mapper)
      ensures cacheOps.entries == PutAll(old(cacheOps.entries), LoadedRoutes(outcome))
      ensures cacheOps.saves == old(cacheOps.saves) + SavesOf(LoadedRoutes(outcome))
    {
      var chosen: Processed;
      ghost var invoked: seq<Node>;
      match files(fileRoutes) {
        case Missing =>
          outcome := NotLoaded;
          return;
        case ReadError(_) =>
          chosen, invoked := ProcessJsonNodes(stringRoutes, mapper);
        case Content(p) =>
          chosen, invoked := ProcessJsonNodes(p, mapper);
          if chosen.Thrown? && chosen.failure.JacksonMapperError? {
            chosen, invoked := ProcessJsonNodes(stringRoutes, mapper);
          }
      }
      match chosen
      case Thrown(f) =>
        outcome := Failed(f);
      case Routes(rs) =>
        var i := 0;
        while i < |rs|
          invariant 0 <= i <= |rs|
          invariant cacheOps.entries == PutAll(old(cacheOps.entries), rs[..i])
          invariant cacheOps.saves == old(cacheOps.saves) + SavesOf(rs[..i])
        {
          assert rs[..i + 1][..i] == rs[..i];
          assert SavesOf(rs[..i + 1]) == SavesOf(rs[..i]) + [Save(Key(rs[i]), rs[i])];
          cacheOps.SaveInCache(Key(rs[i]), rs[i]);
          i := i + 1;
        }
        assert rs[..i] == rs;
        outcome := Loaded(rs);
    }
  }

  /** A missing file loads nothing: neither the file nor the fallback is processed. */
  lemma LoadMissingFile(fallback: Payload, mapper: Mapper)
    ensures Load(Missing, fallback, mapper) == NotLoaded
    ensures LoadedRoutes(Load(Missing, fallback, mapper)) == []
  {
  }

  /** An unreadable file gives the same outcome as if the fallback text had been the file. */
  lemma LoadReadErrorIsFallback(m: string, fallback: Payload, mapper: Mapper)
    ensures Load(ReadError(m), fallback, mapper) == Load(Content(fallback), fallback, mapper)
  {
  }

  /** The fallback is taken only for the technical error: a file that is not an array,
      or whose mapper raises an unchecked exception, fails the load without it. */
  lemma LoadFallbackOnlyOnTechnicalError(p: Payload, fallback: Payload, mapper: Mapper)
    ensures ProcessSpec(p, mapper).Routes? ==> Load(Content(p), fallback, mapper) == Loaded(ProcessSpec(p, mapper).routes)
    ensures ProcessSpec(p, mapper).Thrown? && !ProcessSpec(p, mapper).failure.JacksonMapperError? ==>
              Load(Content(p), fallback, mapper) == Failed(ProcessSpec(p, mapper).failure)
    ensures Load(Content(NotArray), fallback, mapper) == Failed(ExpectedAnArray)
    ensures ProcessSpec(p, mapper).Thrown? && ProcessSpec(p, mapper).failure.JacksonMapperError? ==>
              Load(Content(p), fallback, mapper) == Load(ReadError(""), fallback, mapper)
  {
  }

  /** Whatever is loaded is the kept routes of exactly one source, the file or the fallback,
      so there is at most one route per element of that source. */
  lemma LoadedFromOneSource(file: FileSource, fallback: Payload, mapper: Mapper)
    ensures Load(file, fallback, mapper).Loaded? ==>
              var rs := Load(file, fallback, mapper).routes;
              (file.Content? && file.payload.Array? && rs == Kept(file.payload.elements, mapper)
                 && |rs| <= |file.payload.elements|)
              || (fallback.Array? && rs == Kept(fallback.elements, mapper) && |rs| <= |fallback.elements|)
  {
    ProcessRoutes(fallback, mapper);
    if fallback.Array? {
      KeptLength(fallback.elements, mapper);
    }
    if file.Content? {
      ProcessRoutes(file.payload, mapper);
      if file.payload.Array? {
        KeptLength(file.payload.elements, mapper);
      }
    }
  }

  /** The mixed array of the loader's tests: two valid objects around one without the
      required fields, and a mapper that raises for anything but the two valid texts. */
  const ValidText1 := "{\"channel\":\"D2B\",\"transaction\":\"9540\"}"
  const InvalidText := "{\"invalid\":\"true\"}"
  const ValidText2 := "{\"channel\":\"D2B\",\"transaction\":\"9541\"}"
  const Route9540 := ConfiguredRoute(Some("D2B"), Some("9540"), "")
  const Route9541 := ConfiguredRoute(Some("D2B"), Some("9541"), "")

  function MixedMapper(text: string): MapperOutcome
  {
    if text == ValidText1 then Mapped(Route9540)
    else if text == ValidText2 then Mapped(Route9541)
    else Unchecked("Invalid node")
  }

  function MixedArray(): Payload
  {
    Array([Parsed(Obj({Channel, Transaction}, ValidText1)),
           Parsed(Obj({"invalid"}, InvalidText)),
           Parsed(Obj({Channel, Transaction}, ValidText2))], Closed)
  }

  /** The invalid middle element is skipped without reaching the mapper (which would have
      raised), the two routes come out in array order, and the store ends up holding
      exactly them under "D2B-9540" and "D2B-9541". */
  lemma MixedArrayExample(fallback: Payload)
    ensures ProcessSpec(MixedArray(), MixedMapper) == Routes([Route9540, Route9541])
    ensures MapperInputs(MixedArray()) == [MixedArray().elements[0].node, MixedArray().elements[2].node]
    ensures Load(Content(MixedArray()), fallback, MixedMapper) == Loaded([Route9540, Route9541])
    ensures PutAll(map[], [Route9540, Route9541]) == map["D2B-9540" := Route9540, "D2B-9541" := Route9541]
  {
    var es := MixedArray().elements;
    assert Step(es[0], MixedMapper) == Route(Route9540);
    assert Step(es[1], MixedMapper) == NoRoute;
    assert Step(es[2], MixedMapper) == Route(Route9541);
    assert es[..2][..1] == es[..1] && es[..1][..0] == [] && es[..3] == es;
    assert ScanElements(es[..1], MixedMapper) == Gathered([Route9540]);
    assert ScanElements(es[..2], MixedMapper) == Gathered([Route9540]);
    assert ScanElements(es, MixedMapper) == Gathered([Route9540, Route9541]);
    assert es[1..][1..][1..] == [];
    assert Key(Route9540) == "D2B-9540" && Key(Route9541) == "D2B-9541";
    var both := [Route9540, Route9541];
    assert both[..1] == [Route9540] && [Route9540][..0] == [];
    assert PutAll(map[], [Route9540]) == map["D2B-9540" := Route9540];
    assert PutAll(map[], both) == PutAll(map[], [Route9540])["D2B-9541" := Route9541];
  }
}
