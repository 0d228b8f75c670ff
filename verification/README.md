# bgcval2 time-series configuration, in Dafny

This project models how bgcval2's time-series driver, `analysis_timeseries`, decides
what to analyse. The model covers these steps:

- A suite argument (`"level1,physics"` or a list) becomes suite names.
- The suites' YAML key lists merge into the ordered list of enabled analysis keys.
- Every key loads from its `key_files/<key>.yml` into a specification:
  - the common fields;
  - the model part and the optional observational-data part, each with its variables,
    its conversion function and keyword arguments, its files and its coordinates.
- Path templates containing `$FLAG` placeholders expand against the key file and the
  site paths, then glob and sort into file lists.
- A pre-flight check tests that the files of each analysis exist. In the source it runs
  inside the analysis loop, just before that analysis is executed. In strict mode the
  first problem stops the loop, after the analyses before it have run. In lenient mode
  it warns and carries on. The model states the checks alone; the executor is left out.
- Two smaller decisions in the driver: the region presets, and the variable-naming table
  chosen from a sample `grid_T` model file.

Every operation is a pure function over immutable values. Python's exceptions and
`sys.exit` become `Failure` values of a `Result` type, so each error path is part of the
model. Everything outside the configuration logic is passed in as a parameter:

- the filesystem: which paths exist, and what `glob` returns;
- the parsed YAML documents;
- the user name and the site paths;
- the conversion functions that a Python file defines;
- the time-dictionary registry;
- the coordinate names guessed from NetCDF files.

Python semantics the model relies on are written out in Dafny:

- `str.replace`, `split`, `join`, `find`, `upper` and `lower`. Case mapping is ASCII.
- `posixpath.join` and `posixpath.dirname`.
- Ordering of `str` values, and `sorted`.
- Truthiness.
- Dictionaries that keep insertion order, where assigning an existing key keeps its
  position.

Modules, in dependency order:

| module | file | what it holds |
|---|---|---|
| `Outcomes` | outcomes.dfy | `Option`, `Result` and the error values |
| `Text` | text.dfy | the string operations above, and `replace` = `join` ∘ `split` |
| `PyValues` | pyvalues.dfy | YAML values, truthiness, ordered dictionaries |
| `Ordering` | ordering.dfy | string order, `sorted`, and that a sorted arrangement is unique |
| `PosixPath` | posix_path.dfy | `join` and `dirname` |
| `Placeholders` | placeholders.dfy | `findReplaceFlag` and the ordered flag list |
| `FileSets` | file_sets.dfy | `list_input_files` and `listModelDataFiles` |
| `ListParsing` | list_parsing.dfy | `parse_list_from_string` and its reference meaning |
| `SuiteKeys` | suite_keys.dfy | suite splitting and `build_list_of_suite_keys` |
| `FunctionLoader` | function_loader.dfy | `get_kwargs_from_dict` and `load_function` |
| `KeySpecs` | key_specs.dfy | `load_key_file` |
| `AnalysisRun` | analysis_run.dfy | presets, the naming table, loading all keys, the pre-flight check |

## Model

| member | source | states |
|---|---|---|
| Text.ReplaceIsSplitJoin | bgcval2/analysis_timeseries.py:240 | `str.replace` rewrites exactly the occurrences of the pattern. Cutting the text at the occurrences gives pieces that never contain the pattern. Joining them with the pattern gives the text back. Joining them with the replacement gives the `replace` result. |
| Placeholders.FindReplaceFlag | bgcval2/analysis_timeseries.py:229-241 | If `$FLAG` (the flag upper-cased) is absent, the path is returned unchanged, whatever the value. If it is present, the call succeeds exactly when the value is a string, and every occurrence is replaced by it. |
| Placeholders.SubstitutionOrder | bgcval2/analysis_timeseries.py:101-110 | The substitutions are the five fixed flags, then those of `jobID, model, years, year, scenario, name` that the key file sets to a truthy value, in that order. |
| Placeholders.YearsTokenReplacedWhole | bgcval2/analysis_timeseries.py:104-110 | For a template whose only `$` is one `$YEARS` token: when the key file sets `years` to a `$`-free string, the token is replaced whole by that value, whatever the other flags are. |
| Placeholders.YearRewritesYearsPrefix | bgcval2/analysis_timeseries.py:104-110 | For a template whose only `$` is one `$YEARS` token: when `years` is not set but `year` is a `$`-free string, the token becomes the year followed by a stray `S`. This is the hazard that putting `years` before `year` avoids. |
| FileSets.ListInputFiles | bgcval2/analysis_timeseries.py:94-119 | Substitution errors propagate. A missing parent directory is an error. No match is an error naming the directory and the pattern. Otherwise the result is the matches, sorted and complete, and never empty. |
| FileSets.MissingDirectoryBeforeGlob | bgcval2/analysis_timeseries.py:112-115 | A missing directory fails before any matching, so what the glob would have found makes no difference. |
| FileSets.ListInputFilesOrderStable | bgcval2/analysis_timeseries.py:115 | The file list does not depend on the order in which the glob lists the matches. |
| FileSets.ListModelDataFiles | bgcval2/analysis_timeseries.py:73-91 | The result is the matches of the monthly or annual model-output pattern, sorted, with nothing lost or added. |
| FileSets.ModelFilePatternDirectory | bgcval2/analysis_timeseries.py:79-89 | The model files are looked for inside the job's own directory under the data folder. |
| Ordering.Sort | bgcval2/analysis_timeseries.py:115 | `sorted` gives an ordered permutation of its input. |
| SuiteKeys.MergeKeys | bgcval2/analysis_timeseries.py:157-169 | The only way the key loop fails is exit status 1 for a conflicting key. |
| SuiteKeys.MergeSuites | bgcval2/analysis_timeseries.py:133-169 | A failure of the suite loop is a `sys.exit(1)`, or the `AttributeError` of `.items()`. The `AttributeError` happens only when some suite that is not skipped is a mapping whose `keys` is not a mapping. |
| SuiteKeys.KeysNotMappingRaises | bgcval2/analysis_timeseries.py:155-157 | A suite file whose `keys` is null, a list or a scalar raises `AttributeError`, whatever earlier suites enabled. |
| SuiteKeys.SuiteKeysMeaning | bgcval2/analysis_timeseries.py:122-171 | The merge succeeds exactly when both hold: every suite that is not skipped has an existing, usable file whose `keys` is a mapping or absent; and no entry switches off a key that an earlier entry switched on. On success the result is the enabled keys of all suites, each once, in order of first enabling. |
| SuiteKeys.SuiteKeysDistinctAndEnabled | bgcval2/analysis_timeseries.py:157-171 | The returned keys are distinct. A key is returned exactly when some suite sets it to true. |
| SuiteKeys.EnabledThenDisabledExits | bgcval2/analysis_timeseries.py:161-163 | In the merge of key entries, `X: true` followed by `X: false` exits with status 1. |
| SuiteKeys.ConflictAcrossSuitesExits | bgcval2/analysis_timeseries.py:142-163 | A suite file enabling `X` followed by a later suite file switching `X` off exits with status 1. |
| SuiteKeys.DisabledThenEnabledAccepted | bgcval2/analysis_timeseries.py:161-169 | In the merge of key entries, `X: false` followed by `X: true` is accepted and enables `X`. |
| SuiteKeys.TwoSuitesExample | bgcval2/analysis_timeseries.py:122-171 | Two suite files, `{A: true, B: false}` and then `{A: true, C: true}`, give `[A, C]`. |
| SuiteKeys.SplitSuitesMeaning | bgcval2/analysis_timeseries.py:415-417 | A suite string is cut at every space and comma, with quotes removed. No name holds a space, comma or quote. Re-joining the names with spaces gives the cleaned text. The only name the merge skips is the empty one. |
| ListParsing.ParseList | bgcval2/analysis_timeseries.py:244-255 | A list is returned unchanged. A string becomes the words of the reference: separators turned into spaces, quotes deleted, space runs squeezed, then cut at spaces. Any other value has no `replace`. |
| ListParsing.ParseListIsWords | bgcval2/analysis_timeseries.py:250-255 | The four rounds of `replace`, the halving loop and the split together equal the reference. |
| ListParsing.CollapseIsSqueeze | bgcval2/analysis_timeseries.py:252-253 | The halving loop ends and leaves exactly one space for every run of spaces. |
| ListParsing.ParseListShape | bgcval2/analysis_timeseries.py:244-255 | A parsed string is never empty, and its elements hold no space, tab, comma, quote or semicolon. Only the first or last element can be empty. Joining the elements with spaces gives the cleaned, squeezed text. |
| ListParsing.EmptyStringParses | bgcval2/analysis_timeseries.py:255 | An empty entry parses to one empty name. |
| ListParsing.CommaListParses | bgcval2/analysis_timeseries.py:250-255 | `"a, b"` parses to `["a", "b"]`. |
| FunctionLoader.KwargsAreDescriptorWithout | bgcval2/analysis_timeseries.py:174-183 | The keyword arguments are exactly the descriptor's entries other than `path` and `function`, in the same order, with the same values. |
| FunctionLoader.LoadFunction | bgcval2/analysis_timeseries.py:186-226 | A standard name loads with no keyword arguments. A non-mapping descriptor fails, and a missing `function` is a `KeyError`. A mapping naming a standard function loads it with the mapping's keyword arguments. A mapping naming another function with a `path` resolves a `bgcval2` prefix against the repository. A missing file is `FileNotFoundError`, and a file that does not define the name is an `AttributeError`. Otherwise the function loads with the mapping's keyword arguments. |
| FunctionLoader.MissingPathRefused | bgcval2/analysis_timeseries.py:205-207 | A non-standard function with no usable `path` is a `KeyError`. |
| FunctionLoader.MissingFileRefused | bgcval2/analysis_timeseries.py:209-215 | A function file that does not exist is `FileNotFoundError`, naming the resolved path. |
| FunctionLoader.LoadFunctionTestDescriptors | tests/integration/test_analysis_timeseries.py:8-31 | `{path, function}` loads the function with no keyword arguments. Adding `cow: moo` gives exactly `{cow: moo}`. |
| KeySpecs.KeyFileInKeyFiles | bgcval2/analysis_timeseries.py:266 | A key file is looked up directly inside `key_files`, and the case of the key does not matter. |
| KeySpecs.KeyContext | bgcval2/analysis_timeseries.py:282 | The key dictionary has `jobID` set to the job. Every other entry is unchanged. |
| KeySpecs.CommonFields | bgcval2/analysis_timeseries.py:284-305 | The common fields load exactly when all of these succeed: `layers` and `regions` parse; `dimensions` exists; any `metrics` parse; the grid template matches files. The scalar fields are copied. `layers` and `regions` are what their entries parse to. Metrics are parsed from the key file, or otherwise defaulted by dimensionality. A missing `dimensions` is a `KeyError`. |
| KeySpecs.AbsentLayersGiveEmptyName | bgcval2/analysis_timeseries.py:290-292 | An absent `layers` entry becomes the single empty name. |
| KeySpecs.AbsentRegionsGiveEmptyName | bgcval2/analysis_timeseries.py:290-292 | An absent `regions` entry becomes the single empty name. |
| KeySpecs.MetricsDefault | bgcval2/analysis_timeseries.py:295-301 | Without `metrics`, one-dimensional data gets `metricless`, and `True` counts as one. Anything else gets `mean`. |
| KeySpecs.GridFileIsFirstMatch | bgcval2/analysis_timeseries.py:303-305 | The grid file is one of the files its template matches, and it is the first of them in string order. |
| KeySpecs.KwargField | bgcval2/analysis_timeseries.py:327-331 | A string argument whose name contains `file`, in any case, is always resolved. It becomes the sorted, non-empty list of files it matches, and fails exactly when listing fails, with that error. Any other argument is copied. |
| KeySpecs.ResolveKwargsSucceeds | bgcval2/analysis_timeseries.py:327-331 | The keyword-argument loop succeeds exactly when every argument resolves. |
| KeySpecs.DetailsMeaning | bgcval2/analysis_timeseries.py:321-331 | The details hold `name`, `vars`, `convert` and `units`, unless a keyword argument of the same name replaces them. They also hold every keyword argument with its resolved value. |
| KeySpecs.CollapseRoundTrip | bgcval2/analysis_timeseries.py:341-342 | Storing one data file as a bare path loses nothing, and the bare form is used exactly for one file. |
| KeySpecs.RoleFiles | bgcval2/analysis_timeseries.py:333-344 | The model part lists `modelFiles`, and the data part lists `dataFile`. Each succeeds exactly when the entry exists and lists files. The files are sorted and non-empty. A single data file is stored as its bare path. |
| KeySpecs.TimeDict | bgcval2/analysis_timeseries.py:347-349 | The time dictionary named by `tdict`, `ZeroToZero` by default, is looked up in the registry. The lookup succeeds exactly when the registry has that name, and otherwise is a `KeyError` naming it. |
| KeySpecs.CoordsMeaning | bgcval2/analysis_timeseries.py:350-356 | Every guessed coordinate is present, overridden by the key file's `<part>_<coordinate>` entry where there is one. Nothing else changes. |
| KeySpecs.RoleCoordsMeaning | bgcval2/analysis_timeseries.py:346-356 | A part's coordinates hold the time dictionary, unless a guessed coordinate is itself named `tdict`. They also hold every guessed coordinate, with key-file overrides. |
| KeySpecs.LoadRole | bgcval2/analysis_timeseries.py:317-356 | A part loads exactly when all of these succeed: its variables parse; its conversion entry exists and loads; `name` and `units` exist; every keyword argument resolves; its files are listed; its time dictionary is found. A loaded part holds the details built from the loaded keyword arguments, the listed files, and coordinates built from its time dictionary and the guessed coordinates. |
| KeySpecs.LoadData | bgcval2/analysis_timeseries.py:308-312 | Without `data_vars`, or with `data_vars: false`, there is no data part. Otherwise the data part loads exactly when its part loads. |
| KeySpecs.BuildSpec | bgcval2/analysis_timeseries.py:284-357 | Common fields come first and their errors win. Then a missing `model_vars` is a `KeyError`. Then the model part loads, and its error wins over the data part's. The specification loads exactly when both parts load. It holds the common fields, the model part and the data part as loaded. |
| KeySpecs.LoadKeyFile | bgcval2/analysis_timeseries.py:258-282 | A missing key file is `FileNotFoundError`. An empty or non-mapping document exits with status 1. Any other key file gives exactly what building the specification from the document, with `jobID` set, gives. |
| KeySpecs.JobIdOverrides | bgcval2/analysis_timeseries.py:282 | Setting `jobID` does not disturb the `model_vars` and `data_vars` entries, and it replaces any `jobID` already in the key file. |
| AnalysisRun.RegionPreset | bgcval2/analysis_timeseries.py:433-453 | Every preset is non-empty, starts with `Global` and has no repeated region. |
| AnalysisRun.RegionPresetDefined | bgcval2/analysis_timeseries.py:433-453 | A preset exists exactly for `all`, `short`, `debug`, `Global` and `spinup`. `all` has nine regions, `short` has three, and the others have only `Global`. |
| AnalysisRun.NamingConvention | bgcval2/analysis_timeseries.py:555-587 | A naming table names all ten roles, in order. |
| AnalysisRun.NamingPriority | bgcval2/analysis_timeseries.py:555-587 | The table is chosen by the temperature variable: `votemper` wins over `thetao_con`, and otherwise the CMIP names are used. The NEMO and UKESM2 tables use `time_counter`, and the CMIP table does not. |
| AnalysisRun.UkesmKeys | bgcval2/analysis_timeseries.py:542-587 | The naming table is empty exactly when the job has no `grid_T` file. Otherwise it names all ten roles. |
| AnalysisRun.UkesmKeysSample | bgcval2/analysis_timeseries.py:551-553 | The sample file is the first `grid_T` match in string order. |
| AnalysisRun.UkesmKeysOrderStable | bgcval2/analysis_timeseries.py:542-553 | The naming table does not depend on the order in which the glob lists the matches. |
| AnalysisRun.LoadAllMeaning | bgcval2/analysis_timeseries.py:654-656 | Loading distinct keys succeeds exactly when every key loads. It then appends one entry per key, in key order. Otherwise it fails with the error of the first key that fails. |
| AnalysisRun.Loaded | bgcval2/analysis_timeseries.py:654-656 | The entries appended for keys that all load are one per key, in key order, each holding what its key loads to. |
| AnalysisRun.LoadAllFresh | bgcval2/analysis_timeseries.py:654-656 | The analysis dictionary's keys are the enabled keys in order. Each entry is what its key loads to. |
| AnalysisRun.ConfigureMeaning | bgcval2/analysis_timeseries.py:415-419 | After splitting and merging the suites, the analysis dictionary has exactly one entry per distinct enabled key. |
| AnalysisRun.MissingFiles | bgcval2/analysis_timeseries.py:2701-2711 | The reported files are exactly the listed files that do not exist. None are reported exactly when all exist. |
| AnalysisRun.CheckEntryMeaning | bgcval2/analysis_timeseries.py:2694-2722 | For one analysis, the lenient check always goes on, and warns exactly when something is wrong. The strict check passes exactly when nothing is wrong. |
| AnalysisRun.PreflightMeaning | bgcval2/analysis_timeseries.py:2690-2722 | Over all analyses, lenient mode never stops. Strict mode passes exactly when lenient mode reports nothing, which is exactly when every analysis's files exist. |
| AnalysisRun.EmptyDataFileFailsStrict | bgcval2/analysis_timeseries.py:2715-2722 | A data file given as the empty string fails the strict check. |
| AnalysisRun.DataFilesNeverChecked | bgcval2/analysis_timeseries.py:344 | For an entry as `load_key_file` leaves it, only the model files decide the check. The data files are stored under `dataFiles`, and the check reads `dataFile`. |

## Left out

- The legacy analysis blocks that follow key loading (lines 659-2675) and the analysis
  executor (lines 2724-2772). They run numerical analyses on NetCDF data, which is
  outside configuration resolution.
- Host detection (lines 515-537), argument parsing and `main` (lines 2809-2877), and
  `bgcval2/Paths/paths_local.py`. The site paths and the user name are parameters
  (`Env`).
- `bgcval2/functions/applyLandMask.py`. It is one of the conversion functions that a key
  file can name. Conversion functions are opaque `Function` values here.
- YAML parsing, `glob`, `importlib` and NetCDF reading. These are parameters of the
  model. Module import is assumed to succeed. Floats and dates in YAML values are not
  represented.
- YAML mapping keys are modelled as strings only. A non-string key such as `1: true`, in
  a suite's `keys` or in a key file, is not represented.
- `SuiteKeys.SuiteDoc`: the `KeyEntries` list does not require distinct keys, although a
  YAML mapping holds each key once (`yaml.safe_load` keeps the last value of a repeated
  key). Results about entry lists therefore also cover lists no single suite produces.
- Suite key values are modelled as booleans. The source compares them with `!=` and
  tests their truthiness. Non-boolean values (`1`, `"yes"`) are not modelled.
- `ListModelDataFiles`: the source wraps it in a bare `try/except` at lines 542-549. In
  the model it cannot fail, so that handler has nothing to catch.
- YearsTokenReplacedWhole: stated only for templates whose single `$` is the `$YEARS`
  token, with a `$`-free `years` value. Other tokens in the same template are
  substituted by earlier and later steps. Those steps can also build new tokens across
  piece boundaries, so the general statement needs a description of every rewrite, and
  that is not part of this model.
- YearRewritesYearsPrefix: stated under the same single-`$` restriction, for the same
  reason.
- `FunctionLoader.LoadFunction`: a path that is truthy but not a string is a
  `TypeError`. The source's own exception for that case differs by type (list, int,
  dict) and is not distinguished.
- `KeySpecs.TimeDict`: an unhashable `tdict` is modelled as one `TypeError`.
- `KeySpecs.LoadRole`: the guessed coordinates are an oracle that always answers. A
  failure of `load_coords_from_netcdf` is not modelled.
- `AnalysisRun.RegionPreset`: the `metricList` and `layerList` overrides that the
  presets set are not outputs of the model, because the key-file path sets metrics per
  key.
- `AnalysisRun.PreflightMeaning`: the source checks one analysis at line 2690 and then
  runs it at line 2724 before checking the next. So a strict-mode failure leaves every
  earlier analysis already run. The model checks all entries without the executor in
  between, and does not state this interleaving.
- `AnalysisRun.ConfigureMeaning`: its contract states the keys only. The values are
  stated by `AnalysisRun.LoadAllFresh`.
- The `AutoVivification` side effect of reading a missing `modelFiles` in lenient mode.
  It reads as an empty list, and the model treats it that way.
- Every `print`, and the `debug` flag, which only controls printing.
- Case mapping in `upper()` and `lower()` is modelled for ASCII letters only.

The model follows the code in three behaviours that a reader might not expect:

- A key switched off in one suite and switched on in a later one is accepted (lines
  157-169). Only switching off a key that is already enabled is a conflict.
- The data part's files are stored under `dataFiles` (line 344). The pre-flight check
  reads `dataFile` (lines 2715-2722). So for an entry as `load_key_file` leaves it, the
  data files are never checked. The legacy blocks listed above can still write a
  `dataFile`: for CHD and CHN, lines 743-754 set it to `''`, which the strict check
  then rejects.
- An explicit empty YAML list for `layers`, `regions` or `metrics` is passed through as
  an empty list (lines 290-301). It is not defaulted.
