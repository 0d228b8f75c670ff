/** The decisions `analysis_timeseries()` takes around the key specifications: the region
    presets (bgcval2/analysis_timeseries.py:433-457), the variable-naming table chosen
    from a sample model file (550-587), loading every enabled key (415-417, 655-656) and
    the pre-flight existence check (2694-2722). */
module AnalysisRun {
  import opened Outcomes
  import opened PyValues
  import opened Ordering
  import opened FileSets
  import opened SuiteKeys
  import opened FunctionLoader
  import opened KeySpecs

  // ---------------------------------------------------------------------------------
  // Region presets

  /** The `all` preset. */
  const AllRegions: seq<string> := [
    "Global", "ignoreInlandSeas", "SouthernOcean", "ArcticOcean", "AtlanticSOcean",
    "Equator10", "Remainder", "NorthernSubpolarAtlantic", "NorthernSubpolarPacific"]

  /** The `short` preset. */
  const ShortRegions: seq<string> := ["Global", "SouthernHemisphere", "NorthernHemisphere"]

  /** The names that select a preset. */
  const PresetNames: set<string> := {"all", "short", "debug", "Global", "spinup"}

  /** The region list chosen by the `regions` argument; `None` where the source leaves
      `regionList` unbound. */
  function RegionPreset(regions: Value): (r: Option<seq<string>>)
    ensures r.Some? ==> |r.value| > 0 && r.value[0] == "Global" && Distinct(r.value)
  {
    if regions == VStr("all") then Some(AllRegions)
    else if regions == VStr("short") then Some(ShortRegions)
    else if regions in [VStr("debug"), VStr("Global"), VStr("spinup")] then Some(["Global"])
    else None
  }

  /** A preset exists exactly for the five preset names; `all` has nine regions,
      `short` three and the others only `Global`. */
  lemma RegionPresetDefined(regions: Value)
    ensures RegionPreset(regions).Some? <==> regions.VStr? && regions.s in PresetNames
    ensures regions == VStr("all") ==> |RegionPreset(regions).value| == 9
    ensures regions == VStr("short") ==> |RegionPreset(regions).value| == 3
    ensures regions.VStr? && regions.s in PresetNames - {"all", "short"} ==> RegionPreset(regions) == Some(["Global"])
  {
    if regions.VStr? && regions.s in PresetNames {
      assert regions.s == "all" || regions.s == "short" || regions.s == "debug"
             || regions.s == "Global" || regions.s == "spinup";
      if regions.s in PresetNames - {"all", "short"} {
        assert regions in [VStr("debug"), VStr("Global"), VStr("spinup")];
      }
    }
  }

  // ---------------------------------------------------------------------------------
  // Model variable names

  /** The roles the naming table gives a variable name for, in the order they are set. */
  const NamingRoles: seq<string> := ["time", "temp3d", "sst", "sal3d", "sss", "v3d", "u3d", "e3u", "w3d", "MLD"]

  /** One naming table, its names given in the order of `NamingRoles`. */
  function Table(names: seq<string>): (r: Dict<string>)
    requires |names| == |NamingRoles|
    ensures Keys(r) == NamingRoles
    ensures forall i :: 0 <= i < |r| ==> r[i].1 == names[i]
  {
    seq(|NamingRoles|, i requires 0 <= i < |NamingRoles| => (NamingRoles[i], names[i]))
  }

  /** The older NEMO names. */
  const NemoNames: seq<string> :=
    ["time_counter", "votemper", "", "vosaline", "", "vomecrty", "vozocrtx", "e3u", "vovecrtz", "ssomxl010"]
  /** The names of the UKESM2 ocean, recognised by `thetao_con`. */
  const Ukesm2Names: seq<string> :=
    ["time_counter", "thetao_con", "tos_con", "so_abs", "sos_abs", "vo", "uo", "thkcello", "wo", "somxzint1"]
  /** The CMIP-style names used otherwise. */
  const CmipNames: seq<string> :=
    ["time_centered", "thetao", "tos", "so", "sos", "vo", "uo", "thkcello", "wo", "ssomxl010"]

  /** The table chosen from the variables of a sample file: `votemper` first, then
      `thetao_con`, else the CMIP-style names. */
  function NamingConvention(variables: seq<string>): (r: Dict<string>)
    ensures Keys(r) == NamingRoles
  {
    if "votemper" in variables then Table(NemoNames)
    else if "thetao_con" in variables then Table(Ukesm2Names)
    else Table(CmipNames)
  }

  /** The decision is made by the temperature variable alone, and `votemper` wins over
      `thetao_con` when a file has both. */
  lemma NamingPriority(variables: seq<string>)
    ensures Lookup(NamingConvention(variables), "temp3d") ==
              Some(if "votemper" in variables then "votemper"
                   else if "thetao_con" in variables then "thetao_con"
                   else "thetao")
    ensures Lookup(NamingConvention(variables), "time") == Some("time_counter") <==>
              "votemper" in variables || "thetao_con" in variables
    ensures UniqueKeys(NamingConvention(variables))
  {
    var r := NamingConvention(variables);
    assert r[0] == ("time", r[0].1) && r[1] == ("temp3d", r[1].1);
    assert Lookup(r, "time") == Some(r[0].1);
    assert Lookup(r[1..], "temp3d") == Some(r[1].1);
    assert Lookup(r, "temp3d") == Some(r[1].1);
    assert Distinct(NamingRoles) by {
      forall i, j | 0 <= i < j < |NamingRoles|
        ensures NamingRoles[i] != NamingRoles[j]
      {
        assert |NamingRoles[i]| != |NamingRoles[j]| || NamingRoles[i][0] != NamingRoles[j][0]
               || NamingRoles[i][1] != NamingRoles[j][1] || NamingRoles[i][2] != NamingRoles[j][2];
      }
    }
  }

  /** The naming table of a run: empty when the job has no `grid_T` output, otherwise
      chosen from the variables of the first `grid_T` file. `variablesOf` gives the
      variable names a NetCDF file holds. */
  function UkesmKeys(jobID: string, folder: string, annual: bool, fs: FileSystem,
                     variablesOf: string -> seq<string>): (r: Dict<string>)
    ensures |r| == 0 <==> |fs.glob(ModelFilePattern(jobID, "grid_T", folder, annual))| == 0
    ensures |r| > 0 ==> Keys(r) == NamingRoles
  {
    var files := ListModelDataFiles(jobID, "grid_T", folder, annual, fs);
    if |files| == 0 then
      assert multiset(fs.glob(ModelFilePattern(jobID, "grid_T", folder, annual))) == multiset{};
      []
    else
      assert |Keys(NamingConvention(variablesOf(files[0])))| == |NamingRoles|;
      NamingConvention(variablesOf(files[0]))
  }

  /** The sample file is the first `grid_T` match in code-point order, so the table does
      not depend on the order `glob` lists the matches in. */
  lemma {:induction false} UkesmKeysSample(jobID: string, folder: string, annual: bool, fs: FileSystem,
                                           variablesOf: string -> seq<string>)
    requires |fs.glob(ModelFilePattern(jobID, "grid_T", folder, annual))| > 0
    ensures exists f :: && f in fs.glob(ModelFilePattern(jobID, "grid_T", folder, annual))
                        && (forall g :: g in fs.glob(ModelFilePattern(jobID, "grid_T", folder, annual)) ==> LexLe(f, g))
                        && UkesmKeys(jobID, folder, annual, fs, variablesOf) == NamingConvention(variablesOf(f))
  {
    var matches := fs.glob(ModelFilePattern(jobID, "grid_T", folder, annual));
    var files := ListModelDataFiles(jobID, "grid_T", folder, annual, fs);
    assert |files| == |matches| by {
      assert |multiset(files)| == |multiset(matches)|;
    }
    var f := files[0];
    assert f in multiset(matches);
    forall g | g in matches
      ensures LexLe(f, g)
    {
      assert g in multiset(files);
      SortedHeadIsLeast(files, g);
    }
    assert UkesmKeys(jobID, folder, annual, fs, variablesOf) == NamingConvention(variablesOf(f));
  }

  /** Two listings of the same files give the same table. */
  lemma {:induction false} UkesmKeysOrderStable(jobID: string, folder: string, annual: bool, fs1: FileSystem, fs2: FileSystem,
                                                variablesOf: string -> seq<string>)
    requires multiset(fs1.glob(ModelFilePattern(jobID, "grid_T", folder, annual)))
             == multiset(fs2.glob(ModelFilePattern(jobID, "grid_T", folder, annual)))
    ensures UkesmKeys(jobID, folder, annual, fs1, variablesOf) == UkesmKeys(jobID, folder, annual, fs2, variablesOf)
  {
    SortedPermutationUnique(ListModelDataFiles(jobID, "grid_T", folder, annual, fs1),
                            ListModelDataFiles(jobID, "grid_T", folder, annual, fs2));
  }

  // ---------------------------------------------------------------------------------
  // Loading every enabled key

  /** `load_key_file` for one job. */
  function KeyLoader(jobID: string, w: World): string -> Result<KeySpec> {
    key => LoadKeyFile(key, jobID, w)
  }

  /** The loop that loads each key into the analysis dictionary in turn. */
  function LoadAll(av: Dict<KeySpec>, keys: seq<string>, load: string -> Result<KeySpec>): Result<Dict<KeySpec>>
    decreases |keys|
  {
    if |keys| == 0 then Success(av)
    else
      var spec :- load(keys[0]);
      LoadAll(Store(av, keys[0], spec), keys[1..], load)
  }

  /** With distinct keys the loop succeeds exactly when every key loads, and then holds
      one entry per key, in the order of the keys; otherwise it fails with the error of
      the first key that does not load. */
  lemma LoadAllMeaning(av: Dict<KeySpec>, keys: seq<string>, load: string -> Result<KeySpec>)
    requires Distinct(keys)
    requires forall i :: 0 <= i < |keys| ==> !HasKey(av, keys[i])
    ensures LoadAll(av, keys, load).Success? <==> forall i :: 0 <= i < |keys| ==> load(keys[i]).Success?
    ensures LoadAll(av, keys, load).Success? ==> LoadAll(av, keys, load).value == av + Loaded(keys, load)
    ensures LoadAll(av, keys, load).Failure? ==>
              exists i :: && 0 <= i < |keys|
                          && load(keys[i]).Failure?
                          && LoadAll(av, keys, load).error == load(keys[i]).error
                          && forall j :: 0 <= j < i ==> load(keys[j]).Success?
  {
    LoadAllSucceeds(av, keys, load);
    if LoadAll(av, keys, load).Success? {
      LoadAllLayout(av, keys, load);
    } else {
      LoadAllFirstError(av, keys, load);
    }
  }

  /** The loop succeeds exactly when every key loads. */
  lemma {:induction false} LoadAllSucceeds(av: Dict<KeySpec>, keys: seq<string>, load: string -> Result<KeySpec>)
    ensures LoadAll(av, keys, load).Success? <==> forall i :: 0 <= i < |keys| ==> load(keys[i]).Success?
    decreases |keys|
  {
    if |keys| > 0 {
      LoadAllStep(keys, load);
      if load(keys[0]).Success? {
        LoadAllSucceeds(Store(av, keys[0], load(keys[0]).value), keys[1..], load);
      }
    }
  }

  /** After loading the first key, the remaining keys are still distinct and new. */
  lemma LoadAllTailFresh(av: Dict<KeySpec>, keys: seq<string>, spec: KeySpec)
    requires |keys| > 0 && Distinct(keys)
    requires forall i :: 0 <= i < |keys| ==> !HasKey(av, keys[i])
    ensures Store(av, keys[0], spec) == av + [(keys[0], spec)]
    ensures Distinct(keys[1..])
    ensures forall i :: 0 <= i < |keys[1..]| ==> !HasKey(av + [(keys[0], spec)], keys[1..][i])
  {
    StoreNewKey(av, keys[0], spec);
    AppendKeys(av, (keys[0], spec));
    var tail := keys[1..];
    forall i | 0 <= i < |tail|
      ensures !HasKey(av + [(keys[0], spec)], tail[i])
    {
      assert tail[i] == keys[i + 1] && keys[0] != keys[i + 1];
    }
    assert Distinct(tail) by {
      forall i, j | 0 <= i < j < |tail|
        ensures tail[i] != tail[j]
      {
        assert tail[i] == keys[i + 1] && tail[j] == keys[j + 1];
      }
    }
  }

  /** One entry per key, in the order of the keys, holding what the key loads to. */
  function Loaded(keys: seq<string>, load: string -> Result<KeySpec>): (r: Dict<KeySpec>)
    requires forall i :: 0 <= i < |keys| ==> load(keys[i]).Success?
    ensures |r| == |keys|
    ensures forall i :: 0 <= i < |keys| ==> r[i] == (keys[i], load(keys[i]).value)
    decreases |keys|
  {
    if |keys| == 0 then []
    else
      assert forall i :: 0 <= i < |keys[1..]| ==> keys[1..][i] == keys[i + 1];
      [(keys[0], load(keys[0]).value)] + Loaded(keys[1..], load)
  }

  lemma AppendAssoc<T>(a: seq<T>, b: seq<T>, c: seq<T>)
    ensures (a + b) + c == a + (b + c)
  {
  }

  /** A successful loop appends one entry per key, in the order of the keys. */
  lemma {:induction false} LoadAllLayout(av: Dict<KeySpec>, keys: seq<string>, load: string -> Result<KeySpec>)
    requires Distinct(keys)
    requires forall i :: 0 <= i < |keys| ==> !HasKey(av, keys[i])
    requires forall i :: 0 <= i < |keys| ==> load(keys[i]).Success?
    ensures LoadAll(av, keys, load) == Success(av + Loaded(keys, load))
    decreases |keys|
  {
    if |keys| > 0 {
      var entry := (keys[0], load(keys[0]).value);
      LoadAllTailFresh(av, keys, entry.1);
      LoadedCons(keys, load);
      LoadAllLayout(av + [entry], keys[1..], load);
      LoadAllLayoutStep(av, keys, load);
    } else {
      assert av + Loaded(keys, load) == av;
    }
  }

  /** The step of `LoadAllLayout`: the first key's entry, then the rest's. */
  lemma LoadAllLayoutStep(av: Dict<KeySpec>, keys: seq<string>, load: string -> Result<KeySpec>)
    requires |keys| > 0 && forall i :: 0 <= i < |keys| ==> load(keys[i]).Success?
    requires forall i :: 0 <= i < |keys[1..]| ==> load(keys[1..][i]).Success?
    requires Store(av, keys[0], load(keys[0]).value) == av + [(keys[0], load(keys[0]).value)]
    requires LoadAll(av + [(keys[0], load(keys[0]).value)], keys[1..], load)
               == Success(av + [(keys[0], load(keys[0]).value)] + Loaded(keys[1..], load))
    ensures LoadAll(av, keys, load) == Success(av + Loaded(keys, load))
  {
    var entry := (keys[0], load(keys[0]).value);
    assert LoadAll(av, keys, load) == LoadAll(Store(av, keys[0], entry.1), keys[1..], load);
    LoadedCons(keys, load);
    AppendAssoc(av, [entry], Loaded(keys[1..], load));
  }

  /** The entries of the first key and of the rest. */
  lemma LoadedCons(keys: seq<string>, load: string -> Result<KeySpec>)
    requires |keys| > 0
    requires forall i :: 0 <= i < |keys| ==> load(keys[i]).Success?
    ensures forall i :: 0 <= i < |keys[1..]| ==> load(keys[1..][i]).Success?
    ensures Loaded(keys, load) == [(keys[0], load(keys[0]).value)] + Loaded(keys[1..], load)
  {
    assert forall i :: 0 <= i < |keys[1..]| ==> keys[1..][i] == keys[i + 1];
  }

  /** A failing loop fails with the error of the first key that does not load. */
  lemma {:induction false} LoadAllFirstError(av: Dict<KeySpec>, keys: seq<string>, load: string -> Result<KeySpec>)
    requires LoadAll(av, keys, load).Failure?
    ensures exists i :: && 0 <= i < |keys|
                        && load(keys[i]).Failure?
                        && LoadAll(av, keys, load).error == load(keys[i]).error
                        && forall j :: 0 <= j < i ==> load(keys[j]).Success?
    decreases |keys|
  {
    if load(keys[0]).Failure? {
      assert LoadAll(av, keys, load).error == load(keys[0]).error;
    } else {
      var next := Store(av, keys[0], load(keys[0]).value);
      var tail := keys[1..];
      LoadAllFirstError(next, tail, load);
      var i :| && 0 <= i < |tail|
               && load(tail[i]).Failure?
               && LoadAll(next, tail, load).error == load(tail[i]).error
               && forall j :: 0 <= j < i ==> load(tail[j]).Success?;
      assert keys[i + 1] == tail[i];
      forall j | 0 <= j < i + 1
        ensures load(keys[j]).Success?
      {
        if j > 0 {
          assert keys[j] == tail[j - 1];
        }
      }
    }
  }

  /** Every key loads exactly when the first does and every later one does. */
  lemma LoadAllStep(keys: seq<string>, load: string -> Result<KeySpec>)
    requires |keys| > 0
    ensures (forall i :: 0 <= i < |keys| ==> load(keys[i]).Success?) <==>
              (load(keys[0]).Success? && forall i :: 0 <= i < |keys[1..]| ==> load(keys[1..][i]).Success?)
  {
    if load(keys[0]).Success? && forall i :: 0 <= i < |keys[1..]| ==> load(keys[1..][i]).Success? {
      forall i | 0 <= i < |keys|
        ensures load(keys[i]).Success?
      {
        if i > 0 {
          assert keys[i] == keys[1..][i - 1];
        }
      }
    }
  }

  /** From the suites argument to the analysis dictionary: split the suites, merge their
      key lists, and load every enabled key. */
  function Configure(suites: SuiteArgument, jobID: string, w: World, docs: SuiteDocs): Result<Dict<KeySpec>> {
    var keys :- BuildSuiteKeys(SplitSuites(suites), w.loader.repoDir, w.fs, docs);
    LoadAll([], keys, KeyLoader(jobID, w))
  }

  /** Loading distinct keys into an empty dictionary gives exactly those keys, in order,
      each with its loaded specification. */
  lemma LoadAllFresh(keys: seq<string>, load: string -> Result<KeySpec>)
    requires Distinct(keys)
    requires LoadAll([], keys, load).Success?
    ensures Keys(LoadAll([], keys, load).value) == keys
    ensures forall i :: 0 <= i < |keys| ==> load(keys[i]).Success? && LoadAll([], keys, load).value[i].1 == load(keys[i]).value
  {
    LoadAllMeaning([], keys, load);
    assert [] + Loaded(keys, load) == Loaded(keys, load);
  }

  /** The analysis dictionary has one entry per enabled key, in order of first enabling;
      by `LoadAllFresh` each entry is what `load_key_file` gives for its key. */
  lemma ConfigureMeaning(suites: SuiteArgument, jobID: string, w: World, docs: SuiteDocs)
    requires Configure(suites, jobID, w, docs).Success?
    ensures var keys := BuildSuiteKeys(SplitSuites(suites), w.loader.repoDir, w.fs, docs);
            && keys.Success?
            && Distinct(keys.value)
            && Configure(suites, jobID, w, docs) == LoadAll([], keys.value, KeyLoader(jobID, w))
            && Keys(Configure(suites, jobID, w, docs).value) == keys.value
  {
    var names := SplitSuites(suites);
    var keys := BuildSuiteKeys(names, w.loader.repoDir, w.fs, docs).value;
    SuiteKeysDistinctAndEnabled(names, w.loader.repoDir, w.fs, docs, "");
    LoadAllFresh(keys, KeyLoader(jobID, w));
  }

  // ---------------------------------------------------------------------------------
  // Pre-flight check

  /** What the pre-flight check reads from one entry of the analysis dictionary. */
  datatype AvEntry = AvEntry(modelFiles: Option<seq<string>>, dataFile: Option<string>)

  /** A problem the lenient check reports and carries on past. */
  datatype Warning =
    | ModelFilesAbsent(name: string)
    | ModelFilesMissing(name: string, missing: seq<string>)
    | DataFileMissing(name: string, path: string)

  /** The files of a list that do not exist, in list order. */
  function MissingFiles(files: seq<string>, fs: FileSystem): (r: seq<string>)
    ensures forall f :: f in r <==> f in files && !PathExists(fs, f)
    ensures |r| <= |files|
    ensures |r| == 0 <==> forall f :: f in files ==> PathExists(fs, f)
  {
    if |files| == 0 then []
    else (if PathExists(fs, files[0]) then [] else [files[0]]) + MissingFiles(files[1..], fs)
  }

  /** The check of one entry: model files given, all model files present, and the data
      file, if the entry has one, present. Strict mode stops at the first problem. */
  function CheckEntry(name: string, entry: AvEntry, strict: bool, fs: FileSystem): Result<seq<Warning>> {
    if entry.modelFiles.None? && strict then Failure(ModelFilesNotProvided(name))
    else
      var absent := if entry.modelFiles.None? then [ModelFilesAbsent(name)] else [];
      var files := if entry.modelFiles.Some? then entry.modelFiles.value else [];
      var missing := MissingFiles(files, fs);
      if |missing| > 0 && strict then Failure(ModelFilesNotFound(name, missing))
      else
        var notFound := if |missing| > 0 then [ModelFilesMissing(name, missing)] else [];
        if entry.dataFile.Some? && !PathExists(fs, entry.dataFile.value) then
          if strict then Failure(DataFileNotFound(name, entry.dataFile.value))
          else Success(absent + notFound + [DataFileMissing(name, entry.dataFile.value)])
        else Success(absent + notFound)
  }

  /** The checks of every entry, in dictionary order. The source runs each entry's
      analysis right after its check (line 2724); that executor is not part of this model. */
  function Preflight(av: Dict<AvEntry>, strict: bool, fs: FileSystem): Result<seq<Warning>>
    decreases |av|
  {
    if |av| == 0 then Success([])
    else
      var first :- CheckEntry(av[0].0, av[0].1, strict, fs);
      var rest :- Preflight(av[1..], strict, fs);
      Success(first + rest)
  }

  /** What makes an entry pass: its model files are given and all exist, and its data
      file, if it has one, exists. */
  predicate EntryOk(entry: AvEntry, fs: FileSystem) {
    && entry.modelFiles.Some?
    && (forall f :: f in entry.modelFiles.value ==> PathExists(fs, f))
    && (entry.dataFile.Some? ==> PathExists(fs, entry.dataFile.value))
  }

  /** One entry: the lenient check always goes on, with no warning exactly when the
      entry is fine, and the strict check passes exactly then. */
  lemma CheckEntryMeaning(name: string, entry: AvEntry, fs: FileSystem)
    ensures CheckEntry(name, entry, false, fs).Success?
    ensures CheckEntry(name, entry, false, fs).value == [] <==> EntryOk(entry, fs)
    ensures CheckEntry(name, entry, true, fs).Success? <==> EntryOk(entry, fs)
    ensures CheckEntry(name, entry, true, fs).Success? ==> CheckEntry(name, entry, true, fs).value == []
  {
  }

  /** The whole check: lenient mode never stops, and strict mode passes exactly when
      lenient mode reports nothing. */
  lemma {:induction false} PreflightMeaning(av: Dict<AvEntry>, fs: FileSystem)
    ensures Preflight(av, false, fs).Success?
    ensures Preflight(av, true, fs).Success? <==> Preflight(av, false, fs).value == []
    ensures Preflight(av, true, fs).Success? <==> forall i :: 0 <= i < |av| ==> EntryOk(av[i].1, fs)
    decreases |av|
  {
    if |av| > 0 {
      CheckEntryMeaning(av[0].0, av[0].1, fs);
      PreflightMeaning(av[1..], fs);
      if EntryOk(av[0].1, fs) && forall i :: 0 <= i < |av[1..]| ==> EntryOk(av[1..][i].1, fs) {
        forall i | 0 <= i < |av|
          ensures EntryOk(av[i].1, fs)
        {
          if i > 0 {
            assert av[i] == av[1..][i - 1];
          }
        }
      } else if EntryOk(av[0].1, fs) {
        var j :| 0 <= j < |av[1..]| && !EntryOk(av[1..][j].1, fs);
        assert av[j + 1] == av[1..][j];
      }
    }
  }

  /** A data file given as the empty string fails the strict check, because the empty
      path never exists. */
  lemma EmptyDataFileFailsStrict(name: string, files: seq<string>, fs: FileSystem)
    requires forall f :: f in files ==> PathExists(fs, f)
    ensures CheckEntry(name, AvEntry(Some(files), Some("")), true, fs) == Failure(DataFileNotFound(name, ""))
  {
  }

  /** The entry a key specification makes: its model files, and no `dataFile`, because
      the data part's files are stored under `dataFiles`. */
  function EntryOf(spec: KeySpec): AvEntry {
    AvEntry(Some(FileList(spec.model.files)), None)
  }

  /** For a key loaded from its key file only the model files are checked: the data
      files play no part in the outcome. */
  lemma DataFilesNeverChecked(name: string, spec: KeySpec, strict: bool, fs: FileSystem)
    ensures CheckEntry(name, EntryOf(spec), true, fs).Success? <==>
              forall f :: f in FileList(spec.model.files) ==> PathExists(fs, f)
    ensures CheckEntry(name, EntryOf(spec), strict, fs) == CheckEntry(name, EntryOf(spec.(data := None)), strict, fs)
  {
    CheckEntryMeaning(name, EntryOf(spec), fs);
  }
}
