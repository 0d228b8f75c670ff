/** `load_key_file` (bgcval2/analysis_timeseries.py:258-357): reading one key file and
    resolving it into the specification of one analysis, with its model part and its
    optional observational-data part.

    The key YAML, the coordinate guesses read from NetCDF files and the registry of time
    dictionaries are oracles held in a `World`. */
module KeySpecs {
  import opened Outcomes
  import opened Text
  import opened PyValues
  import opened PosixPath
  import opened Ordering
  import opened Placeholders
  import opened FileSets
  import opened ListParsing
  import opened FunctionLoader

  /** The files of one part: a list, or for observational data that matched a single
      file, that bare path. */
  datatype Files = Paths(paths: seq<string>) | Bare(path: string)

  /** A value in a details dictionary: copied from the key file, the loaded conversion
      function, or a file keyword argument resolved to the files it matches. */
  datatype Field = Val(v: Value) | Fn(f: Function) | Listed(files: seq<string>)

  /** The two parts of an analysis. */
  datatype Role = ModelRole | DataRole

  /** `modeldetails`/`modelFiles`/`modelcoords`, or the same for `data`. */
  datatype RoleSpec = RoleSpec(details: Dict<Field>, files: Files, coords: Dict<Value>)

  /** The entries of a specification common to both parts. */
  datatype Common = Common(
    name: Value,
    units: Value,
    dimensions: Value,
    modelgrid: Value,
    layers: seq<Value>,
    regions: seq<Value>,
    metrics: seq<Value>,
    gridFile: string)

  /** The dictionary `load_key_file` returns. */
  datatype KeySpec = KeySpec(common: Common, model: RoleSpec, data: Option<RoleSpec>)

  /** Everything `load_key_file` consults besides the key and the job id. */
  datatype World = World(
    env: Env,                          // the user and the `paths` module
    fs: FileSystem,
    keyDocs: string -> Value,          // what `yaml.safe_load` gives for a key file
    loader: Loader,                    // what `load_function` consults
    tdicts: Dict<Value>,               // the registry of time dictionaries
    coordsOf: Files -> Dict<Value>)    // the coordinate names guessed from the files

  function Prefix(role: Role): string {
    match role
    case ModelRole => "model"
    case DataRole => "data"
  }

  /** `<repo>/key_files/<key in lower case>.yml`. */
  function KeyFilePath(repo: string, key: string): string {
    PathJoin(PathJoin(repo, "key_files"), Lower(key) + ".yml")
  }

  /** A key file is looked up directly in the `key_files` directory of the repository,
      whatever the case of the key. */
  lemma KeyFileInKeyFiles(repo: string, key: string)
    requires '/' !in key
    ensures Dirname(KeyFilePath(repo, key)) == PathJoin(repo, "key_files")
    ensures KeyFilePath(repo, key) == KeyFilePath(repo, Lower(key))
  {
    var dir := PathJoin(repo, "key_files");
    assert dir[|dir| - 1] == 's' by {
      if repo != "" && repo[|repo| - 1] != '/' {
        assert dir == repo + "/" + "key_files";
      }
    }
    var name := Lower(key) + ".yml";
    forall i | 0 <= i < |name|
      ensures name[i] != '/'
    {
      if i < |key| {
        assert name[i] == LowerChar(key[i]);
        assert key[i] in key;
      }
    }
    DirnameOfJoin(dir, name);
    assert Lower(Lower(key)) == Lower(key);
  }

  /** The key dictionary as the rest of the function sees it: the YAML mapping with
      `jobID` set to the job being analysed. */
  function KeyContext(doc: Dict<Value>, jobID: string): (ctx: Dict<Value>)
    ensures Lookup(ctx, "jobID") == Some(VStr(jobID))
    ensures forall k :: k != "jobID" ==> Lookup(ctx, k) == Lookup(doc, k)
  {
    Store(doc, "jobID", VStr(jobID))
  }

  /** The metrics used when the key file names none: `metricless` for a
      one-dimensional field, `mean` otherwise. */
  function DefaultMetrics(dimensions: Value): seq<Value> {
    if EqualsOne(dimensions) then [VStr("metricless")] else [VStr("mean")]
  }

  /** The common entries: the four scalar fields copied, layers and regions parsed,
      metrics parsed or defaulted, and the grid file resolved to its first match. */
  function CommonFields(ctx: Dict<Value>, w: World): (r: Result<Common>)
    ensures r.Success? ==>
              && r.value.name == Get(ctx, "name", VNone)
              && r.value.units == Get(ctx, "units", VNone)
              && r.value.dimensions == Get(ctx, "dimensions", VNone)
              && r.value.modelgrid == Get(ctx, "modelgrid", VNone)
    ensures r.Success? ==> HasKey(ctx, "dimensions")
    ensures r.Success? && !HasKey(ctx, "metrics") ==>
              r.value.metrics == DefaultMetrics(Lookup(ctx, "dimensions").value)
    ensures r.Success? && HasKey(ctx, "metrics") ==>
              ParseList(Lookup(ctx, "metrics").value) == Success(r.value.metrics)
    ensures r.Success? ==>
              && ParseList(Get(ctx, "layers", VStr(""))) == Success(r.value.layers)
              && ParseList(Get(ctx, "regions", VStr(""))) == Success(r.value.regions)
    ensures (&& ParseList(Get(ctx, "layers", VStr(""))).Success?
             && ParseList(Get(ctx, "regions", VStr(""))).Success?
             && !HasKey(ctx, "dimensions")) ==> r == Failure(KeyError("dimensions"))
    ensures r.Success? <==>
              && ParseList(Get(ctx, "layers", VStr(""))).Success?
              && ParseList(Get(ctx, "regions", VStr(""))).Success?
              && HasKey(ctx, "dimensions")
              && (HasKey(ctx, "metrics") ==> ParseList(Lookup(ctx, "metrics").value).Success?)
              && GridFiles(ctx, w).Success?
  {
    var layers :- ParseList(Get(ctx, "layers", VStr("")));
    var regions :- ParseList(Get(ctx, "regions", VStr("")));
    var dimensions :- Index(ctx, "dimensions");
    var metrics :- ParseList(Get(ctx, "metrics", VList(DefaultMetrics(dimensions))));
    var grid :- GridFiles(ctx, w);
    Success(Common(Get(ctx, "name", VNone), Get(ctx, "units", VNone), dimensions,
                   Get(ctx, "modelgrid", VNone), layers, regions, metrics, grid[0]))
  }

  /** Layers that the key file leaves out become the single empty name. */
  lemma AbsentLayersGiveEmptyName(ctx: Dict<Value>, w: World)
    requires !HasKey(ctx, "layers")
    requires CommonFields(ctx, w).Success?
    ensures CommonFields(ctx, w).value.layers == [VStr("")]
  {
    EmptyStringParses();
  }

  /** Regions that the key file leaves out become the single empty name. */
  lemma AbsentRegionsGiveEmptyName(ctx: Dict<Value>, w: World)
    requires !HasKey(ctx, "regions")
    requires CommonFields(ctx, w).Success?
    ensures CommonFields(ctx, w).value.regions == [VStr("")]
  {
    EmptyStringParses();
  }

  /** The files the grid-file template of a key matches. */
  function GridFiles(ctx: Dict<Value>, w: World): Result<seq<string>> {
    ListInputFiles(Get(ctx, "gridFile", VStr(w.env.paths.orcaGridfn)), ctx, w.env, w.fs)
  }

  /** The grid file is the first, in code-point order, of the files its template
      matches. */
  lemma GridFileIsFirstMatch(ctx: Dict<Value>, w: World)
    requires CommonFields(ctx, w).Success?
    ensures GridFiles(ctx, w).Success?
    ensures CommonFields(ctx, w).value.gridFile in GridFiles(ctx, w).value
    ensures forall f :: f in GridFiles(ctx, w).value ==> LexLe(CommonFields(ctx, w).value.gridFile, f)
  {
    var grid := GridFiles(ctx, w);
    assert grid.Success? && CommonFields(ctx, w).value.gridFile == grid.value[0];
    FirstIsLeast(grid.value);
  }

  /** The first of a non-empty sorted list is below every element. */
  lemma FirstIsLeast(files: seq<string>)
    requires Sorted(files) && |files| > 0
    ensures forall f :: f in files ==> LexLe(files[0], f)
  {
    forall f | f in files
      ensures LexLe(files[0], f)
    {
      SortedHeadIsLeast(files, f);
    }
  }

  // ---------------------------------------------------------------------------------
  // Keyword arguments of the conversion function

  /** One keyword argument: a string whose name contains `file`, in any case, is a file
      template and is resolved to the files it matches; anything else is copied. */
  function KwargField(k: string, v: Value, ctx: Dict<Value>, w: World): (r: Result<Field>)
    ensures !(v.VStr? && Contains(Lower(k), "file")) ==> r == Success(Val(v))
    ensures r.Success? && r.value.Listed? ==>
              && Contains(Lower(k), "file")
              && Sorted(r.value.files) && |r.value.files| > 0
              && ApplySubstitutions(v.s, Substitutions(ctx, w.env)).Success?
              && multiset(r.value.files) == multiset(w.fs.glob(ApplySubstitutions(v.s, Substitutions(ctx, w.env)).value))
    ensures r.Failure? ==> v.VStr? && ListInputFiles(v, ctx, w.env, w.fs).Failure?
    ensures v.VStr? && Contains(Lower(k), "file") ==>
              var listed := ListInputFiles(v, ctx, w.env, w.fs);
              && (r.Success? <==> listed.Success?)
              && (r.Success? ==> r.value == Listed(listed.value))
              && (r.Failure? ==> r.error == listed.error)
  {
    if v.VStr? && Contains(Lower(k), "file") then
      var files :- ListInputFiles(v, ctx, w.env, w.fs);
      Success(Listed(files))
    else Success(Val(v))
  }

  /** The details a part starts from, before the keyword arguments are added. */
  function BaseDetails(name: Value, vars: seq<Value>, convert: Function, units: Value): Dict<Field> {
    [("name", Val(name)), ("vars", Val(VList(vars))), ("convert", Fn(convert)), ("units", Val(units))]
  }

  /** `KwargField` for one key dictionary. */
  function Resolver(ctx: Dict<Value>, w: World): (string, Value) -> Result<Field> {
    (k, v) => KwargField(k, v, ctx, w)
  }

  /** The keyword-argument loop: each argument is resolved and assigned into the details
      in turn. */
  function ResolveKwargs(details: Dict<Field>, kwargs: Dict<Value>, resolve: (string, Value) -> Result<Field>): Result<Dict<Field>>
    decreases |kwargs|
  {
    if |kwargs| == 0 then Success(details)
    else
      var f :- resolve(kwargs[0].0, kwargs[0].1);
      ResolveKwargs(Store(details, kwargs[0].0, f), kwargs[1..], resolve)
  }

  /** The loop succeeds exactly when every argument resolves. */
  lemma {:induction false} ResolveKwargsSucceeds(details: Dict<Field>, kwargs: Dict<Value>, resolve: (string, Value) -> Result<Field>)
    ensures ResolveKwargs(details, kwargs, resolve).Success? <==>
              forall i :: 0 <= i < |kwargs| ==> resolve(kwargs[i].0, kwargs[i].1).Success?
    decreases |kwargs|
  {
    if |kwargs| > 0 {
      var f := resolve(kwargs[0].0, kwargs[0].1);
      if f.Success? {
        var tail := kwargs[1..];
        ResolveKwargsSucceeds(Store(details, kwargs[0].0, f.value), tail, resolve);
        if forall i :: 0 <= i < |tail| ==> resolve(tail[i].0, tail[i].1).Success? {
          forall i | 0 <= i < |kwargs|
            ensures resolve(kwargs[i].0, kwargs[i].1).Success?
          {
            if i > 0 {
              assert kwargs[i] == tail[i - 1];
            }
          }
        } else {
          var j :| 0 <= j < |tail| && !resolve(tail[j].0, tail[j].1).Success?;
          assert kwargs[j + 1] == tail[j];
        }
      }
    }
  }

  /** After the loop each argument's entry is its resolved value and every other entry
      is unchanged. */
  lemma {:induction false} ResolveKwargsLookup(details: Dict<Field>, kwargs: Dict<Value>, resolve: (string, Value) -> Result<Field>)
    requires UniqueKeys(kwargs)
    requires ResolveKwargs(details, kwargs, resolve).Success?
    ensures forall k :: HasKey(kwargs, k) ==>
              && resolve(k, Lookup(kwargs, k).value).Success?
              && Lookup(ResolveKwargs(details, kwargs, resolve).value, k) == Some(resolve(k, Lookup(kwargs, k).value).value)
    ensures forall k :: !HasKey(kwargs, k) ==>
              Lookup(ResolveKwargs(details, kwargs, resolve).value, k) == Lookup(details, k)
    decreases |kwargs|
  {
    if |kwargs| > 0 {
      var k0 := kwargs[0].0;
      var f := resolve(k0, kwargs[0].1);
      var tail := kwargs[1..];
      UniqueKeysTail(kwargs);
      ResolveKwargsLookup(Store(details, k0, f.value), tail, resolve);
      assert Keys(kwargs) == [k0] + Keys(tail);
      forall k | k != k0
        ensures Lookup(kwargs, k) == Lookup(tail, k)
      {
      }
    }
  }

  /** The details of a part hold its name, variables, conversion function and units,
      unless a keyword argument of the same name replaces them, and every keyword
      argument with its resolved value. */
  lemma DetailsMeaning(name: Value, vars: seq<Value>, convert: Function, units: Value,
                       kwargs: Dict<Value>, resolve: (string, Value) -> Result<Field>)
    requires UniqueKeys(kwargs)
    requires ResolveKwargs(BaseDetails(name, vars, convert, units), kwargs, resolve).Success?
    ensures var details := ResolveKwargs(BaseDetails(name, vars, convert, units), kwargs, resolve).value;
            && (!HasKey(kwargs, "name") ==> Lookup(details, "name") == Some(Val(name)))
            && (!HasKey(kwargs, "vars") ==> Lookup(details, "vars") == Some(Val(VList(vars))))
            && (!HasKey(kwargs, "convert") ==> Lookup(details, "convert") == Some(Fn(convert)))
            && (!HasKey(kwargs, "units") ==> Lookup(details, "units") == Some(Val(units)))
            && (forall k :: HasKey(kwargs, k) ==>
                  && resolve(k, Lookup(kwargs, k).value).Success?
                  && Lookup(details, k) == Some(resolve(k, Lookup(kwargs, k).value).value))
  {
    var base := BaseDetails(name, vars, convert, units);
    ResolveKwargsLookup(base, kwargs, resolve);
    assert Lookup(base, "name") == Some(Val(name));
    assert Lookup(base, "vars") == Some(Val(VList(vars)));
    var rest := base[1..][1..];
    assert rest == [("convert", Fn(convert)), ("units", Val(units))];
    assert Lookup(rest, "convert") == Some(Fn(convert));
    assert Lookup(base[1..], "convert") == Lookup(rest, "convert");
    assert Lookup(base, "convert") == Some(Fn(convert));
    assert rest[1..] == [("units", Val(units))];
    assert Lookup(rest[1..], "units") == Some(Val(units));
    assert Lookup(rest, "units") == Lookup(rest[1..], "units");
    assert Lookup(base[1..], "units") == Lookup(rest, "units");
    assert Lookup(base, "units") == Some(Val(units));
  }

  // ---------------------------------------------------------------------------------
  // Files and coordinates

  /** A single data file is stored as its bare path. */
  function CollapseFiles(files: seq<string>): Files {
    if |files| == 1 then Bare(files[0]) else Paths(files)
  }

  /** The files a `Files` value stands for. */
  function FileList(files: Files): seq<string> {
    match files
    case Paths(ps) => ps
    case Bare(p) => [p]
  }

  /** Collapsing loses nothing: the list is recovered, and the bare form is used exactly
      for one file. */
  lemma CollapseRoundTrip(files: seq<string>)
    ensures FileList(CollapseFiles(files)) == files
    ensures CollapseFiles(files).Bare? <==> |files| == 1
  {
    if |files| == 1 {
      assert files == [files[0]];
    }
  }

  /** The files of one part: `modelFiles` for the model, `dataFile` for the data. */
  function RoleFiles(role: Role, ctx: Dict<Value>, w: World): (r: Result<Files>)
    ensures role == ModelRole ==>
              && (r.Success? <==> HasKey(ctx, "modelFiles") && ListInputFiles(Lookup(ctx, "modelFiles").value, ctx, w.env, w.fs).Success?)
              && (r.Success? ==> r.value == Paths(ListInputFiles(Lookup(ctx, "modelFiles").value, ctx, w.env, w.fs).value))
    ensures role == DataRole ==>
              && (r.Success? <==> HasKey(ctx, "dataFile") && ListInputFiles(Lookup(ctx, "dataFile").value, ctx, w.env, w.fs).Success?)
              && (r.Success? ==> FileList(r.value) == ListInputFiles(Lookup(ctx, "dataFile").value, ctx, w.env, w.fs).value)
              && (r.Success? ==> r.value == CollapseFiles(ListInputFiles(Lookup(ctx, "dataFile").value, ctx, w.env, w.fs).value))
    ensures r.Success? ==> Sorted(FileList(r.value)) && |FileList(r.value)| > 0
  {
    match role
    case ModelRole =>
      var template :- Index(ctx, "modelFiles");
      var files :- ListInputFiles(template, ctx, w.env, w.fs);
      Success(Paths(files))
    case DataRole =>
      var template :- Index(ctx, "dataFile");
      var files :- ListInputFiles(template, ctx, w.env, w.fs);
      CollapseRoundTrip(files);
      Success(CollapseFiles(files))
  }

  /** The time dictionary named by `tdict`, `ZeroToZero` by default. */
  function TimeDict(ctx: Dict<Value>, tdicts: Dict<Value>): (r: Result<Value>)
    ensures !HasKey(ctx, "tdict") ==>
              r == (if HasKey(tdicts, "ZeroToZero") then Success(Lookup(tdicts, "ZeroToZero").value)
                    else Failure(KeyError("ZeroToZero")))
    ensures r.Success? ==> Get(ctx, "tdict", VStr("ZeroToZero")).VStr?
                           && Lookup(tdicts, Get(ctx, "tdict", VStr("ZeroToZero")).s) == Some(r.value)
    ensures Get(ctx, "tdict", VStr("ZeroToZero")).VStr? ==>
              var name := Get(ctx, "tdict", VStr("ZeroToZero")).s;
              && (r.Success? <==> HasKey(tdicts, name))
              && (r.Failure? ==> r.error == KeyError(name))
  {
    var name := Get(ctx, "tdict", VStr("ZeroToZero"));
    if !Hashable(name) then Failure(TypeError("unhashable type"))
    else if name.VStr? then Index(tdicts, name.s)
    else Failure(KeyError(KeyText(name)))
  }

  /** The coordinate loop: each guessed coordinate is assigned in turn, taking the key
      file's `<role>_<coordinate>` entry when there is one. */
  function Coords(coords: Dict<Value>, guessed: Dict<Value>, ctx: Dict<Value>, role: Role): Dict<Value>
    decreases |guessed|
  {
    if |guessed| == 0 then coords
    else
      var c := guessed[0].0;
      var value := Get(ctx, Prefix(role) + "_" + c, guessed[0].1);
      Coords(Store(coords, c, value), guessed[1..], ctx, role)
  }

  /** Every guessed coordinate is present, overridden by the key file where it names
      one; the other entries are unchanged. */
  lemma {:induction false} CoordsMeaning(coords: Dict<Value>, guessed: Dict<Value>, ctx: Dict<Value>, role: Role)
    requires UniqueKeys(guessed)
    ensures forall c :: Lookup(Coords(coords, guessed, ctx, role), c) ==
              if HasKey(guessed, c) then Some(Get(ctx, Prefix(role) + "_" + c, Lookup(guessed, c).value))
              else Lookup(coords, c)
    decreases |guessed|
  {
    if |guessed| > 0 {
      var c0 := guessed[0].0;
      var tail := guessed[1..];
      var next := Store(coords, c0, Get(ctx, Prefix(role) + "_" + c0, guessed[0].1));
      UniqueKeysTail(guessed);
      CoordsMeaning(next, tail, ctx, role);
      assert Keys(guessed) == [c0] + Keys(tail);
      forall c
        ensures Lookup(Coords(coords, guessed, ctx, role), c) ==
                  if HasKey(guessed, c) then Some(Get(ctx, Prefix(role) + "_" + c, Lookup(guessed, c).value))
                  else Lookup(coords, c)
      {
        if c != c0 {
          assert Lookup(guessed, c) == Lookup(tail, c);
        }
      }
    }
  }

  // ---------------------------------------------------------------------------------
  // One part

  /** One part, once its variables are known to be given: variables parsed, conversion
      function loaded, details built, files listed and coordinates resolved. */
  function LoadRole(role: Role, mdVars: Value, ctx: Dict<Value>, w: World): (r: Result<RoleSpec>)
    ensures r.Success? ==>
              && HasKey(ctx, Prefix(role) + "_convert")
              && HasKey(ctx, "name") && HasKey(ctx, "units")
              && RoleFiles(role, ctx, w) == Success(r.value.files)
              && |FileList(r.value.files)| > 0
    ensures r.Success? ==>
              var loaded := LoadFunction(Lookup(ctx, Prefix(role) + "_convert").value, w.loader, w.fs);
              && loaded.Success?
              && ParseList(mdVars).Success?
              && ResolveKwargs(BaseDetails(Lookup(ctx, "name").value, ParseList(mdVars).value, loaded.value.0,
                                           Lookup(ctx, "units").value),
                               loaded.value.1, Resolver(ctx, w)) == Success(r.value.details)
    ensures r.Success? ==>
              TimeDict(ctx, w.tdicts).Success?
              && r.value.coords == Coords([("tdict", TimeDict(ctx, w.tdicts).value)], w.coordsOf(r.value.files), ctx, role)
    ensures r.Success? <==> RoleLoads(role, mdVars, ctx, w)
  {
    var vars :- ParseList(mdVars);
    var convert :- Index(ctx, Prefix(role) + "_convert");
    var loaded :- LoadFunction(convert, w.loader, w.fs);
    var name :- Index(ctx, "name");
    var units :- Index(ctx, "units");
    ResolveKwargsSucceeds(BaseDetails(name, vars, loaded.0, units), loaded.1, Resolver(ctx, w));
    var details :- ResolveKwargs(BaseDetails(name, vars, loaded.0, units), loaded.1, Resolver(ctx, w));
    var files :- RoleFiles(role, ctx, w);
    var tdict :- TimeDict(ctx, w.tdicts);
    Success(RoleSpec(details, files, Coords([("tdict", tdict)], w.coordsOf(files), ctx, role)))
  }

  /** Every step of loading a part succeeds: the variables parse, the conversion entry
      exists and loads, `name` and `units` exist, every keyword argument resolves, the
      part's files are listed and its time dictionary is found. */
  predicate RoleLoads(role: Role, mdVars: Value, ctx: Dict<Value>, w: World) {
    && ParseList(mdVars).Success?
    && HasKey(ctx, Prefix(role) + "_convert")
    && LoadFunction(Lookup(ctx, Prefix(role) + "_convert").value, w.loader, w.fs).Success?
    && HasKey(ctx, "name") && HasKey(ctx, "units")
    && (forall i :: 0 <= i < |LoadFunction(Lookup(ctx, Prefix(role) + "_convert").value, w.loader, w.fs).value.1| ==>
          var kw := LoadFunction(Lookup(ctx, Prefix(role) + "_convert").value, w.loader, w.fs).value.1[i];
          KwargField(kw.0, kw.1, ctx, w).Success?)
    && RoleFiles(role, ctx, w).Success?
    && TimeDict(ctx, w.tdicts).Success?
  }

  /** The coordinates of a part: the time dictionary, then every guessed coordinate,
      overridden by the key file's `<role>_<coordinate>` entry where there is one. */
  lemma RoleCoordsMeaning(role: Role, mdVars: Value, ctx: Dict<Value>, w: World)
    requires LoadRole(role, mdVars, ctx, w).Success?
    requires UniqueKeys(w.coordsOf(LoadRole(role, mdVars, ctx, w).value.files))
    ensures var spec := LoadRole(role, mdVars, ctx, w).value;
            var guessed := w.coordsOf(spec.files);
            && (forall c :: HasKey(guessed, c) ==>
                  Lookup(spec.coords, c) == Some(Get(ctx, Prefix(role) + "_" + c, Lookup(guessed, c).value)))
            && (!HasKey(guessed, "tdict") ==> Lookup(spec.coords, "tdict") == Some(TimeDict(ctx, w.tdicts).value))
  {
    var spec := LoadRole(role, mdVars, ctx, w).value;
    var base := [("tdict", TimeDict(ctx, w.tdicts).value)];
    CoordsMeaning(base, w.coordsOf(spec.files), ctx, role);
    assert Lookup(base, "tdict") == Some(TimeDict(ctx, w.tdicts).value);
  }

  // ---------------------------------------------------------------------------------
  // The whole key

  /** `md_vars is False`: the entry is absent or the literal `false`. */
  function Vars(role: Role, ctx: Dict<Value>): Value {
    Get(ctx, Prefix(role) + "_vars", VBool(false))
  }

  /** The data part, which a key file without `data_vars` does not have. */
  function LoadData(ctx: Dict<Value>, w: World): (r: Result<Option<RoleSpec>>)
    ensures Vars(DataRole, ctx) == VBool(false) ==> r == Success(None)
    ensures Vars(DataRole, ctx) != VBool(false) ==>
              (r.Success? <==> LoadRole(DataRole, Vars(DataRole, ctx), ctx, w).Success?)
              && (r.Success? ==> r.value == Some(LoadRole(DataRole, Vars(DataRole, ctx), ctx, w).value))
  {
    var dataVars := Vars(DataRole, ctx);
    if dataVars == VBool(false) then Success(None)
    else
      var spec :- LoadRole(DataRole, dataVars, ctx, w);
      Success(Some(spec))
  }

  /** Everything after the key dictionary has been read, in the order the source
      evaluates it: common entries, then the model part, then the data part. */
  function BuildSpec(ctx: Dict<Value>, w: World): (r: Result<KeySpec>)
    ensures CommonFields(ctx, w).Failure? ==> r == Failure(CommonFields(ctx, w).error)
    ensures CommonFields(ctx, w).Success? && Vars(ModelRole, ctx) == VBool(false) ==>
              r == Failure(KeyError("model_vars"))
    ensures r.Success? ==>
              && r.value.common == CommonFields(ctx, w).value
              && Vars(ModelRole, ctx) != VBool(false)
              && LoadRole(ModelRole, Vars(ModelRole, ctx), ctx, w) == Success(r.value.model)
    ensures r.Success? ==> (r.value.data.None? <==> Vars(DataRole, ctx) == VBool(false))
    ensures r.Success? ==> LoadData(ctx, w) == Success(r.value.data)
    ensures CommonFields(ctx, w).Success? && Vars(ModelRole, ctx) != VBool(false) ==>
              var model := LoadRole(ModelRole, Vars(ModelRole, ctx), ctx, w);
              && (r.Success? <==> model.Success? && LoadData(ctx, w).Success?)
              && (model.Failure? ==> r == Failure(model.error))
              && (model.Success? && LoadData(ctx, w).Failure? ==> r == Failure(LoadData(ctx, w).error))
  {
    var common :- CommonFields(ctx, w);
    var modelVars := Vars(ModelRole, ctx);
    if modelVars == VBool(false) then Failure(KeyError("model_vars"))
    else
      var model :- LoadRole(ModelRole, modelVars, ctx, w);
      var data :- LoadData(ctx, w);
      Success(KeySpec(common, model, data))
  }

  /** `load_key_file(key, paths, jobID)`. */
  function LoadKeyFile(key: string, jobID: string, w: World): (r: Result<KeySpec>)
    ensures var path := KeyFilePath(w.env.paths.bgcval2Repo, key);
            && (!PathExists(w.fs, path) ==> r == Failure(FileNotFound(path)))
            && (PathExists(w.fs, path) && !(Truthy(w.keyDocs(path)) && w.keyDocs(path).VDict?) ==>
                  r == Failure(SystemExit(1, KeyFileCorrupt(path))))
            && (r.Success? ==> PathExists(w.fs, path) && w.keyDocs(path).VDict? && |w.keyDocs(path).entries| > 0)
    ensures var path := KeyFilePath(w.env.paths.bgcval2Repo, key);
            PathExists(w.fs, path) && Truthy(w.keyDocs(path)) && w.keyDocs(path).VDict? ==>
              r == BuildSpec(KeyContext(w.keyDocs(path).entries, jobID), w)
  {
    var path := KeyFilePath(w.env.paths.bgcval2Repo, key);
    if !PathExists(w.fs, path) then Failure(FileNotFound(path))
    else
      var doc := w.keyDocs(path);
      if !Truthy(doc) || !doc.VDict? then Failure(SystemExit(1, KeyFileCorrupt(path)))
      else BuildSpec(KeyContext(doc.entries, jobID), w)
  }

  /** An analysis of one-dimensional data that names no metrics gets `metricless`, and
      `True` counts as one; any other dimensionality gets `mean`. */
  lemma MetricsDefault(ctx: Dict<Value>, w: World)
    requires !HasKey(ctx, "metrics")
    requires CommonFields(ctx, w).Success?
    ensures CommonFields(ctx, w).value.metrics == [VStr("metricless")] <==>
              Lookup(ctx, "dimensions") == Some(VInt(1)) || Lookup(ctx, "dimensions") == Some(VBool(true))
    ensures CommonFields(ctx, w).value.metrics == [VStr("mean")] <==>
              !EqualsOne(Lookup(ctx, "dimensions").value)
  {
  }

  /** Setting `jobID` never hides a key-file entry the rest of the loading reads, so a
      `jobID` in the key file is simply replaced. */
  lemma JobIdOverrides(doc: Dict<Value>, jobID: string)
    ensures Vars(ModelRole, KeyContext(doc, jobID)) == Vars(ModelRole, doc)
    ensures Vars(DataRole, KeyContext(doc, jobID)) == Vars(DataRole, doc)
    ensures Get(KeyContext(doc, jobID), "jobID", VNone) == VStr(jobID)
  {
  }
}
