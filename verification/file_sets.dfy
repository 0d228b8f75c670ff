/** Turning a path template into the sorted list of files it names: `list_input_files`
    and the hard-coded model-output pattern of `listModelDataFiles`
    (bgcval2/analysis_timeseries.py:73-119). The filesystem is an oracle: the set of
    paths that exist and what `glob` returns for a pattern. */
module FileSets {
  import opened Outcomes
  import opened PyValues
  import opened Placeholders
  import opened PosixPath
  import opened Ordering

  /** The filesystem as the configuration layer sees it. `glob` answers in whatever
      order the operating system lists directory entries. */
  datatype FileSystem = FileSystem(existing: set<string>, glob: string -> seq<string>)

  /** `os.path.exists(p)`; the empty path never exists. */
  predicate PathExists(fs: FileSystem, p: string) {
    p != "" && p in fs.existing
  }

  /** `list_input_files(files_path, key_dict, paths)`: substitute the flags, check that
      the parent directory exists, then glob and sort. A template that is not a string
      has no `find` method. */
  function ListInputFiles(template: Value, ctx: Dict<Value>, env: Env, fs: FileSystem): (r: Result<seq<string>>)
    ensures !template.VStr? ==> r == Failure(AttributeError("find"))
    ensures template.VStr? && ApplySubstitutions(template.s, Substitutions(ctx, env)).Failure? ==>
              r == ApplySubstitutions(template.s, Substitutions(ctx, env)).PropagateFailure()
    ensures template.VStr? && ApplySubstitutions(template.s, Substitutions(ctx, env)).Success? ==>
              var path := ApplySubstitutions(template.s, Substitutions(ctx, env)).value;
              && (!PathExists(fs, Dirname(path)) ==> r == Failure(InvalidDirectory(Dirname(path))))
              && (PathExists(fs, Dirname(path)) && |fs.glob(path)| == 0 ==>
                    r == Failure(NoMatchingFiles(Dirname(path), path)))
              && (PathExists(fs, Dirname(path)) && |fs.glob(path)| > 0 ==>
                    r.Success? && Sorted(r.value) && multiset(r.value) == multiset(fs.glob(path)))
    ensures r.Success? ==> |r.value| > 0
  {
    if !template.VStr? then Failure(AttributeError("find"))
    else
      var path :- ApplySubstitutions(template.s, Substitutions(ctx, env));
      var basedir := Dirname(path);
      if !PathExists(fs, basedir) then Failure(InvalidDirectory(basedir))
      else
        var inputFiles := Sort(fs.glob(path));
        if |inputFiles| == 0 then Failure(NoMatchingFiles(basedir, path))
        else Success(inputFiles)
  }

  /** The directory test comes before any matching: when the directory is missing, what
      `glob` would have returned makes no difference. */
  lemma MissingDirectoryBeforeGlob(template: string, ctx: Dict<Value>, env: Env, fs1: FileSystem, fs2: FileSystem)
    requires fs1.existing == fs2.existing
    requires ApplySubstitutions(template, Substitutions(ctx, env)).Success?
    requires !PathExists(fs1, Dirname(ApplySubstitutions(template, Substitutions(ctx, env)).value))
    ensures ListInputFiles(VStr(template), ctx, env, fs1) == ListInputFiles(VStr(template), ctx, env, fs2)
    ensures ListInputFiles(VStr(template), ctx, env, fs1).Failure?
  {
  }

  /** The result does not depend on the order in which `glob` lists the matches: two
      listings of the same files give the same list. */
  lemma {:induction false} ListInputFilesOrderStable(template: Value, ctx: Dict<Value>, env: Env, fs1: FileSystem, fs2: FileSystem)
    requires fs1.existing == fs2.existing
    requires forall p :: multiset(fs1.glob(p)) == multiset(fs2.glob(p))
    ensures ListInputFiles(template, ctx, env, fs1) == ListInputFiles(template, ctx, env, fs2)
  {
    if template.VStr? && ApplySubstitutions(template.s, Substitutions(ctx, env)).Success? {
      var path := ApplySubstitutions(template.s, Substitutions(ctx, env)).value;
      var a := Sort(fs1.glob(path));
      var b := Sort(fs2.glob(path));
      assert multiset(a) == multiset(b);
      SortedPermutationUnique(a, b);
    }
  }

  /** The file name pattern of `listModelDataFiles`: `<folder>/<jobID>/<jobID>o_1y_*_<key>.nc`
      for annual means, `o_1m_` instead of `o_1y_` for monthly ones. */
  function ModelFilePattern(jobID: string, filekey: string, datafolder: string, annual: bool): string {
    var frequency := if annual then "o_1y_*_" else "o_1m_*_";
    PathJoin(datafolder, jobID) + "/" + jobID + frequency + filekey + ".nc"
  }

  /** `listModelDataFiles(jobID, filekey, datafolder, annual)`: the sorted matches of the
      pattern. Unlike `list_input_files` nothing is checked, so no match is an empty list. */
  function ListModelDataFiles(jobID: string, filekey: string, datafolder: string, annual: bool, fs: FileSystem): (r: seq<string>)
    ensures Sorted(r)
    ensures multiset(r) == multiset(fs.glob(ModelFilePattern(jobID, filekey, datafolder, annual)))
  {
    Sort(fs.glob(ModelFilePattern(jobID, filekey, datafolder, annual)))
  }

  /** For a plain job id and file key, the files are looked for directly inside the job's
      own directory under the data folder. */
  lemma ModelFilePatternDirectory(jobID: string, filekey: string, datafolder: string, annual: bool)
    requires |jobID| > 0 && '/' !in jobID && '/' !in filekey
    ensures Dirname(ModelFilePattern(jobID, filekey, datafolder, annual)) == PathJoin(datafolder, jobID)
  {
    var dir := PathJoin(datafolder, jobID);
    var name := jobID + (if annual then "o_1y_*_" else "o_1m_*_") + filekey + ".nc";
    assert ModelFilePattern(jobID, filekey, datafolder, annual) == dir + "/" + name;
    assert dir[|dir| - 1] == jobID[|jobID| - 1];
    assert forall x :: x in name ==> x in jobID || x in "o_1y_*_" || x in "o_1m_*_" || x in filekey || x in ".nc";
    assert PathJoin(dir, name) == dir + "/" + name;
    DirnameOfJoin(dir, name);
  }
}
