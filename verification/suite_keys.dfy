/** `build_list_of_suite_keys` (bgcval2/analysis_timeseries.py:122-171) and the splitting
    of a suite string that precedes it (bgcval2/analysis_timeseries.py:415-417).

    Each suite names a YAML file `key_lists/<suite>.yml` whose `keys` mapping enables or
    disables analysis keys. The merge keeps the keys set to true, in order of first
    enabling, and stops the program when a key that is already enabled is switched off.

    The reference meaning is stated over the concatenated entries of all suites: the
    merge succeeds exactly when no entry switches off a key that an earlier entry switched
    on, and its result is the enabled keys with repetitions removed. */
module SuiteKeys {
  import opened Outcomes
  import opened Text
  import opened PyValues
  import opened PosixPath
  import opened FileSets
  import opened ListParsing

  /** What `yaml.safe_load` yields for a suite file, as the loop reads it. */
  datatype SuiteDoc =
    | Unusable                                   // empty, or not a mapping
    | KeysNotMapping                             // a mapping whose `keys` is null, a list or a scalar
    | KeyEntries(entries: seq<(string, bool)>)   // the entries of `keys`, none when it is absent

  /** The parsed suite file at each path. */
  type SuiteDocs = string -> SuiteDoc

  /** Suite names the loop passes over. */
  predicate Skipped(suite: string) {
    suite == "" || suite == " " || suite == ","
  }

  /** `os.path.join(key_lists_dir, suite.lower() + '.yml')`, with the key-lists directory
      next to the package directory of the repository. */
  function SuiteFile(repoDir: string, suite: string): string {
    PathJoin(PathJoin(repoDir, "key_lists"), Lower(suite) + ".yml")
  }

  // ---------------------------------------------------------------------------------
  // The source's procedure

  /** The inner loop over one suite's `keys`: `enabled` holds the keys stored so far, all
      with value true, in insertion order. */
  function MergeKeys(enabled: seq<string>, entries: seq<(string, bool)>): (r: Result<seq<string>>)
    ensures r.Failure? ==> r.error.SystemExit? && r.error.status == 1 && r.error.reason.SuiteKeyConflict?
    decreases |entries|
  {
    if |entries| == 0 then Success(enabled)
    else
      var key := entries[0].0;
      var on := entries[0].1;
      if key in enabled && !on then Failure(SystemExit(1, SuiteKeyConflict(key)))
      else MergeKeys(if on && key !in enabled then enabled + [key] else enabled, entries[1..])
  }

  /** The outer loop over the suites, continuing from the keys merged so far. */
  function MergeSuites(enabled: seq<string>, suites: seq<string>, repoDir: string,
                       fs: FileSystem, docs: SuiteDocs): (r: Result<seq<string>>)
    ensures r.Failure? ==> (r.error.SystemExit? && r.error.status == 1) || r.error == AttributeError("items")
    ensures r.Failure? && r.error.AttributeError? ==>
              exists i :: 0 <= i < |suites| && !Skipped(suites[i]) && docs(SuiteFile(repoDir, suites[i])).KeysNotMapping?
    decreases |suites|
  {
    if |suites| == 0 then Success(enabled)
    else if Skipped(suites[0]) then MergeSuites(enabled, suites[1..], repoDir, fs, docs)
    else
      var path := SuiteFile(repoDir, suites[0]);
      if !PathExists(fs, path) then Failure(SystemExit(1, SuiteFileMissing(path)))
      else match docs(path)
        case Unusable => Failure(SystemExit(1, SuiteFileCorrupt(path)))
        case KeysNotMapping => Failure(AttributeError("items"))
        case KeyEntries(entries) =>
          var next :- MergeKeys(enabled, entries);
          MergeSuites(next, suites[1..], repoDir, fs, docs)
  }

  /** `build_list_of_suite_keys(suites)`. */
  function BuildSuiteKeys(suites: seq<string>, repoDir: string, fs: FileSystem, docs: SuiteDocs): Result<seq<string>> {
    MergeSuites([], suites, repoDir, fs, docs)
  }

  // ---------------------------------------------------------------------------------
  // The reference

  /** The keys of the entries set to true, in order, repetitions included. */
  function EnabledKeys(entries: seq<(string, bool)>): seq<string>
    decreases |entries|
  {
    if |entries| == 0 then []
    else
      var last := entries[|entries| - 1];
      EnabledKeys(entries[..|entries| - 1]) + (if last.1 then [last.0] else [])
  }

  /** The first occurrence of every element, in order. */
  function Dedup(s: seq<string>): seq<string>
    decreases |s|
  {
    if |s| == 0 then []
    else
      var init := s[..|s| - 1];
      if s[|s| - 1] in init then Dedup(init) else Dedup(init) + [s[|s| - 1]]
  }

  /** Some entry switches off a key that an earlier entry switched on. */
  predicate Conflict(entries: seq<(string, bool)>) {
    exists i, j :: 0 <= i < j < |entries| && entries[i].0 == entries[j].0 && entries[i].1 && !entries[j].1
  }

  /** The entries of every suite in order, or `None` when a suite that is not skipped has
      no file, an unusable one or one whose `keys` is not a mapping. */
  function SuiteEntries(suites: seq<string>, repoDir: string, fs: FileSystem, docs: SuiteDocs): Option<seq<(string, bool)>>
    decreases |suites|
  {
    if |suites| == 0 then Some([])
    else if Skipped(suites[0]) then SuiteEntries(suites[1..], repoDir, fs, docs)
    else
      var path := SuiteFile(repoDir, suites[0]);
      if !PathExists(fs, path) || !docs(path).KeyEntries? then None
      else
        var rest :- SuiteEntries(suites[1..], repoDir, fs, docs);
        Some(docs(path).entries + rest)
  }

  // ---------------------------------------------------------------------------------
  // Facts about the reference

  lemma {:induction false} EnabledKeysMembers(entries: seq<(string, bool)>, x: string)
    ensures x in EnabledKeys(entries) <==> exists i :: 0 <= i < |entries| && entries[i].0 == x && entries[i].1
    decreases |entries|
  {
    if |entries| > 0 {
      var init := entries[..|entries| - 1];
      EnabledKeysMembers(init, x);
      if exists i :: 0 <= i < |init| && init[i].0 == x && init[i].1 {
        var i :| 0 <= i < |init| && init[i].0 == x && init[i].1;
        assert entries[i] == init[i];
      }
      if exists i :: 0 <= i < |entries| && entries[i].0 == x && entries[i].1 {
        var i :| 0 <= i < |entries| && entries[i].0 == x && entries[i].1;
        if i < |init| {
          assert init[i] == entries[i];
        }
      }
    }
  }

  lemma {:induction false} EnabledKeysAppend(p: seq<(string, bool)>, e: (string, bool))
    ensures EnabledKeys(p + [e]) == EnabledKeys(p) + (if e.1 then [e.0] else [])
  {
    assert (p + [e])[..|p|] == p;
  }

  lemma {:induction false} DedupMembers(s: seq<string>, x: string)
    ensures x in Dedup(s) <==> x in s
    decreases |s|
  {
    if |s| > 0 {
      var init := s[..|s| - 1];
      DedupMembers(init, x);
      assert s == init + [s[|s| - 1]];
    }
  }

  lemma {:induction false} DedupDistinct(s: seq<string>)
    ensures Distinct(Dedup(s))
    decreases |s|
  {
    if |s| > 0 {
      var init := s[..|s| - 1];
      DedupDistinct(init);
      DedupMembers(init, s[|s| - 1]);
    }
  }

  lemma DedupAppend(s: seq<string>, x: string)
    ensures Dedup(s + [x]) == if x in s then Dedup(s) else Dedup(s) + [x]
  {
    assert (s + [x])[..|s|] == s;
  }

  /** A conflict among earlier entries remains one when more entries follow. */
  lemma ConflictExtends(p: seq<(string, bool)>, q: seq<(string, bool)>)
    requires Conflict(p)
    ensures Conflict(p + q)
  {
    var i, j :| 0 <= i < j < |p| && p[i].0 == p[j].0 && p[i].1 && !p[j].1;
    assert (p + q)[i] == p[i] && (p + q)[j] == p[j];
  }

  /** One more entry adds a conflict exactly when it switches off an enabled key. */
  lemma ConflictAppend(p: seq<(string, bool)>, e: (string, bool))
    requires !Conflict(p)
    ensures Conflict(p + [e]) <==> (!e.1 && e.0 in EnabledKeys(p))
  {
    var pe := p + [e];
    EnabledKeysMembers(p, e.0);
    if !e.1 && e.0 in EnabledKeys(p) {
      var i :| 0 <= i < |p| && p[i].0 == e.0 && p[i].1;
      assert pe[i] == p[i] && pe[|p|] == e;
    }
    if Conflict(pe) {
      var i, j :| 0 <= i < j < |pe| && pe[i].0 == pe[j].0 && pe[i].1 && !pe[j].1;
      if j == |p| {
        assert pe[i] == p[i];
      }
    }
  }

  // ---------------------------------------------------------------------------------
  // The procedure meets the reference

  /** The step of `MergeKeysMeaning`: merging one entry into the keys enabled by `p`. */
  lemma MergeOneEntry(p: seq<(string, bool)>, e: (string, bool))
    requires !Conflict(p)
    requires !(e.0 in Dedup(EnabledKeys(p)) && !e.1)
    ensures !Conflict(p + [e])
    ensures Dedup(EnabledKeys(p + [e])) ==
              (var acc := Dedup(EnabledKeys(p));
               if e.1 && e.0 !in acc then acc + [e.0] else acc)
  {
    DedupMembers(EnabledKeys(p), e.0);
    ConflictAppend(p, e);
    EnabledKeysAppend(p, e);
    var acc := Dedup(EnabledKeys(p));
    if e.1 {
      assert EnabledKeys(p + [e]) == EnabledKeys(p) + [e.0];
      DedupAppend(EnabledKeys(p), e.0);
      if e.0 in acc {
        assert Dedup(EnabledKeys(p + [e])) == acc;
      } else {
        assert Dedup(EnabledKeys(p + [e])) == acc + [e.0];
      }
    } else {
      assert EnabledKeys(p + [e]) == EnabledKeys(p);
    }
  }

  /** Merging the entries `q` after the entries `p`: the merge succeeds exactly when the
      whole sequence has no conflict, and then yields its enabled keys without repeats. */
  lemma {:induction false} MergeKeysMeaning(p: seq<(string, bool)>, q: seq<(string, bool)>)
    requires !Conflict(p)
    ensures MergeKeys(Dedup(EnabledKeys(p)), q).Success? <==> !Conflict(p + q)
    ensures MergeKeys(Dedup(EnabledKeys(p)), q).Success? ==>
              MergeKeys(Dedup(EnabledKeys(p)), q).value == Dedup(EnabledKeys(p + q))
    decreases |q|
  {
    if |q| == 0 {
      assert p + q == p;
    } else {
      var e := q[0];
      var acc := Dedup(EnabledKeys(p));
      assert p + q == (p + [e]) + q[1..];
      if e.0 in acc && !e.1 {
        DedupMembers(EnabledKeys(p), e.0);
        ConflictAppend(p, e);
        ConflictExtends(p + [e], q[1..]);
      } else {
        MergeOneEntry(p, e);
        MergeKeysMeaning(p + [e], q[1..]);
      }
    }
  }

  /** The outer loop, continuing from the keys enabled by the entries `p`. */
  lemma {:induction false} MergeSuitesMeaning(p: seq<(string, bool)>, suites: seq<string>, repoDir: string,
                                              fs: FileSystem, docs: SuiteDocs)
    requires !Conflict(p)
    ensures MergeSuites(Dedup(EnabledKeys(p)), suites, repoDir, fs, docs).Success? <==>
              SuiteEntries(suites, repoDir, fs, docs).Some? && !Conflict(p + SuiteEntries(suites, repoDir, fs, docs).value)
    ensures MergeSuites(Dedup(EnabledKeys(p)), suites, repoDir, fs, docs).Success? ==>
              MergeSuites(Dedup(EnabledKeys(p)), suites, repoDir, fs, docs).value ==
                Dedup(EnabledKeys(p + SuiteEntries(suites, repoDir, fs, docs).value))
    decreases |suites|, 1
  {
    if |suites| == 0 {
      assert p + [] == p;
    } else if Skipped(suites[0]) {
      MergeSuitesMeaning(p, suites[1..], repoDir, fs, docs);
    } else {
      var path := SuiteFile(repoDir, suites[0]);
      if PathExists(fs, path) && docs(path).KeyEntries? {
        UsableSuiteStep(p, suites, repoDir, fs, docs);
      }
    }
  }

  /** The case of `MergeSuitesMeaning` where the first suite has a usable file. */
  lemma {:induction false} UsableSuiteStep(p: seq<(string, bool)>, suites: seq<string>, repoDir: string,
                                           fs: FileSystem, docs: SuiteDocs)
    requires !Conflict(p) && |suites| > 0 && !Skipped(suites[0])
    requires PathExists(fs, SuiteFile(repoDir, suites[0])) && docs(SuiteFile(repoDir, suites[0])).KeyEntries?
    ensures MergeSuites(Dedup(EnabledKeys(p)), suites, repoDir, fs, docs).Success? <==>
              SuiteEntries(suites, repoDir, fs, docs).Some? && !Conflict(p + SuiteEntries(suites, repoDir, fs, docs).value)
    ensures MergeSuites(Dedup(EnabledKeys(p)), suites, repoDir, fs, docs).Success? ==>
              MergeSuites(Dedup(EnabledKeys(p)), suites, repoDir, fs, docs).value ==
                Dedup(EnabledKeys(p + SuiteEntries(suites, repoDir, fs, docs).value))
    decreases |suites|, 0
  {
    var path := SuiteFile(repoDir, suites[0]);
    var entries := docs(path).entries;
    var acc := Dedup(EnabledKeys(p));
    var rest := SuiteEntries(suites[1..], repoDir, fs, docs);
    assert SuiteEntries(suites, repoDir, fs, docs) == if rest.None? then None else Some(entries + rest.value);
    var m := MergeKeys(acc, entries);
    assert MergeSuites(acc, suites, repoDir, fs, docs) ==
             if m.Failure? then Failure(m.error) else MergeSuites(m.value, suites[1..], repoDir, fs, docs);
    MergeKeysMeaning(p, entries);
    if m.Success? {
      MergeSuitesMeaning(p + entries, suites[1..], repoDir, fs, docs);
    }
    CombineSuite(p, entries, rest, m, MergeSuites(acc, suites, repoDir, fs, docs),
                 if m.Success? then MergeSuites(m.value, suites[1..], repoDir, fs, docs) else m);
  }

  /** How the result for one usable suite followed by the others is put together. */
  lemma CombineSuite(p: seq<(string, bool)>, entries: seq<(string, bool)>, rest: Option<seq<(string, bool)>>,
                     m: Result<seq<string>>, out: Result<seq<string>>, tailOut: Result<seq<string>>)
    requires m.Success? <==> !Conflict(p + entries)
    requires m.Success? ==> m.value == Dedup(EnabledKeys(p + entries))
    requires out == if m.Failure? then Failure(m.error) else tailOut
    requires m.Success? ==> (tailOut.Success? <==> rest.Some? && !Conflict((p + entries) + rest.value))
    requires m.Success? && tailOut.Success? ==> tailOut.value == Dedup(EnabledKeys((p + entries) + rest.value))
    ensures out.Success? <==> rest.Some? && !Conflict(p + (entries + rest.value))
    ensures out.Success? ==> out.value == Dedup(EnabledKeys(p + (entries + rest.value)))
  {
    if rest.Some? {
      assert (p + entries) + rest.value == p + (entries + rest.value);
      if m.Failure? {
        ConflictExtends(p + entries, rest.value);
      }
    }
  }

  /** `build_list_of_suite_keys` succeeds exactly when every suite that is not skipped has
      a usable file and no entry switches off a key an earlier entry switched on; it then
      returns each enabled key once, in order of first enabling. */
  lemma SuiteKeysMeaning(suites: seq<string>, repoDir: string, fs: FileSystem, docs: SuiteDocs)
    ensures BuildSuiteKeys(suites, repoDir, fs, docs).Success? <==>
              SuiteEntries(suites, repoDir, fs, docs).Some? && !Conflict(SuiteEntries(suites, repoDir, fs, docs).value)
    ensures BuildSuiteKeys(suites, repoDir, fs, docs).Success? ==>
              BuildSuiteKeys(suites, repoDir, fs, docs).value == Dedup(EnabledKeys(SuiteEntries(suites, repoDir, fs, docs).value))
  {
    assert Dedup(EnabledKeys([])) == [];
    MergeSuitesMeaning([], suites, repoDir, fs, docs);
    if SuiteEntries(suites, repoDir, fs, docs).Some? {
      assert [] + SuiteEntries(suites, repoDir, fs, docs).value == SuiteEntries(suites, repoDir, fs, docs).value;
    }
  }

  /** The keys returned are distinct, and a key is returned exactly when some suite sets
      it to true. */
  lemma SuiteKeysDistinctAndEnabled(suites: seq<string>, repoDir: string, fs: FileSystem, docs: SuiteDocs, x: string)
    requires BuildSuiteKeys(suites, repoDir, fs, docs).Success?
    ensures SuiteEntries(suites, repoDir, fs, docs).Some?
    ensures Distinct(BuildSuiteKeys(suites, repoDir, fs, docs).value)
    ensures var entries := SuiteEntries(suites, repoDir, fs, docs).value;
            x in BuildSuiteKeys(suites, repoDir, fs, docs).value <==>
              exists i :: 0 <= i < |entries| && entries[i].0 == x && entries[i].1
  {
    SuiteKeysMeaning(suites, repoDir, fs, docs);
    var entries := SuiteEntries(suites, repoDir, fs, docs).value;
    DedupDistinct(EnabledKeys(entries));
    DedupMembers(EnabledKeys(entries), x);
    EnabledKeysMembers(entries, x);
  }

  // ---------------------------------------------------------------------------------
  // Cases the source's behaviour turns on

  /** A key already enabled and then switched off stops the program with status 1. The
      entries come from successive suites, because one suite's `keys` mapping holds each
      key once; the suite loop passes each suite's entries through this merge in turn. */
  lemma EnabledThenDisabledExits()
    ensures MergeKeys([], [("X", true), ("X", false)]) == Failure(SystemExit(1, SuiteKeyConflict("X")))
  {
    assert [("X", true), ("X", false)][1..] == [("X", false)];
  }

  /** A key first switched off and later on is accepted: switched-off keys are not
      stored, so there is nothing to conflict with. As above, the entries come from
      successive suites. */
  lemma DisabledThenEnabledAccepted()
    ensures MergeKeys([], [("X", false), ("X", true)]) == Success(["X"])
  {
    var e := [("X", false), ("X", true)];
    assert e[1..] == [("X", true)];
    assert e[1..][1..] == [];
    assert MergeKeys([], e) == MergeKeys([], e[1..]);
    assert [] + ["X"] == ["X"];
    assert MergeKeys([], e[1..]) == MergeKeys(["X"], []);
  }

  /** Suite `s1` enabling `X` and a later suite `s2` switching it off stops the program
      with status 1. */
  lemma ConflictAcrossSuitesExits(repoDir: string, fs: FileSystem, docs: SuiteDocs)
    requires PathExists(fs, SuiteFile(repoDir, "s1")) && PathExists(fs, SuiteFile(repoDir, "s2"))
    requires docs(SuiteFile(repoDir, "s1")) == KeyEntries([("X", true)])
    requires docs(SuiteFile(repoDir, "s2")) == KeyEntries([("X", false)])
    ensures BuildSuiteKeys(["s1", "s2"], repoDir, fs, docs) == Failure(SystemExit(1, SuiteKeyConflict("X")))
  {
    var suites := ["s1", "s2"];
    assert !Skipped("s1") && !Skipped("s2");
    assert [("X", true)][1..] == [] && [("X", false)][1..] == [];
    assert [] + ["X"] == ["X"];
    assert MergeKeys([], [("X", true)]) == Success(["X"]);
    assert suites[1..] == ["s2"];
    assert MergeSuites([], suites, repoDir, fs, docs) == MergeSuites(["X"], suites[1..], repoDir, fs, docs);
  }

  /** A suite file that is a mapping whose `keys` is null, a list or a scalar stops the
      loop with the `AttributeError` of `.items()`, whatever the earlier suites enabled. */
  lemma KeysNotMappingRaises(enabled: seq<string>, suite: string, rest: seq<string>, repoDir: string,
                             fs: FileSystem, docs: SuiteDocs)
    requires !Skipped(suite) && PathExists(fs, SuiteFile(repoDir, suite))
    requires docs(SuiteFile(repoDir, suite)) == KeysNotMapping
    ensures MergeSuites(enabled, [suite] + rest, repoDir, fs, docs) == Failure(AttributeError("items"))
  {
    assert ([suite] + rest)[0] == suite;
  }

  /** Two suite files `{A: true, B: false}` and `{A: true, C: true}` give `[A, C]`. */
  lemma TwoSuitesExample(repoDir: string, fs: FileSystem, docs: SuiteDocs)
    requires PathExists(fs, SuiteFile(repoDir, "s1")) && PathExists(fs, SuiteFile(repoDir, "s2"))
    requires docs(SuiteFile(repoDir, "s1")) == KeyEntries([("A", true), ("B", false)])
    requires docs(SuiteFile(repoDir, "s2")) == KeyEntries([("A", true), ("C", true)])
    ensures BuildSuiteKeys(["s1", "s2"], repoDir, fs, docs) == Success(["A", "C"])
  {
    var e1 := [("A", true), ("B", false)];
    var e2 := [("A", true), ("C", true)];
    assert e1[1..] == [("B", false)] && e1[1..][1..] == [];
    assert [] + ["A"] == ["A"];
    assert MergeKeys([], e1) == MergeKeys(["A"], e1[1..]);
    assert MergeKeys(["A"], e1[1..]) == MergeKeys(["A"], []);
    assert e2[1..] == [("C", true)] && e2[1..][1..] == [];
    assert MergeKeys(["A"], e2) == MergeKeys(["A"], e2[1..]);
    assert ["A"] + ["C"] == ["A", "C"];
    assert MergeKeys(["A"], e2[1..]) == MergeKeys(["A", "C"], []);
    var suites := ["s1", "s2"];
    assert !Skipped("s1") && !Skipped("s2");
    assert suites[1..] == ["s2"] && suites[1..][1..] == [];
    assert MergeSuites([], suites, repoDir, fs, docs) == MergeSuites(["A"], suites[1..], repoDir, fs, docs);
    assert MergeSuites(["A"], suites[1..], repoDir, fs, docs) == MergeSuites(["A", "C"], [], repoDir, fs, docs);
  }

  // ---------------------------------------------------------------------------------
  // The suite argument

  /** The `suites` argument: a list of names, or one string of names. */
  datatype SuiteArgument = SuiteString(text: string) | SuiteList(names: seq<string>)

  /** Characters removed from a suite string before it is split. */
  const SuiteQuotes: set<char> := {'\'', '"'}

  /** `suites.replace(',', ' ').replace("'", '').replace('"', '').split(' ')` for a
      string; a list is used as it is. */
  function SplitSuites(arg: SuiteArgument): seq<string> {
    match arg
    case SuiteList(names) => names
    case SuiteString(text) =>
      Split(ReplaceChar(ReplaceChar(ReplaceChar(text, ',', " "), '\'', ""), '"', ""), " ")
  }

  /** The replacements turn commas into spaces and delete quotes. */
  lemma SuiteStringClean(text: string)
    ensures SplitSuites(SuiteString(text)) == Split(DropChars(ToSpace(text, {','}), SuiteQuotes), " ")
  {
    ReplaceCharToSpace(text, ',');
    var m := ToSpace(text, {','});
    ReplaceCharDrop(m, '\'');
    ReplaceCharDrop(DropChars(m, {'\''}), '"');
    DropTwice(m, {'\''}, {'"'});
    assert {'\''} + {'"'} == SuiteQuotes;
  }

  /** A suite string is cut at every space and comma, with quotes deleted: joining the
      names with single spaces gives the cleaned text back, no name contains a space,
      comma or quote, and the only name the merge skips is the empty one. */
  lemma SplitSuitesMeaning(text: string)
    ensures Join(SplitSuites(SuiteString(text)), " ") == DropChars(ToSpace(text, {','}), SuiteQuotes)
    ensures forall i :: 0 <= i < |SplitSuites(SuiteString(text))| ==> ' ' !in SplitSuites(SuiteString(text))[i]
    ensures forall i, x :: 0 <= i < |SplitSuites(SuiteString(text))| && x in SplitSuites(SuiteString(text))[i] ==>
              x != ',' && x !in SuiteQuotes
    ensures forall i :: 0 <= i < |SplitSuites(SuiteString(text))| ==>
              (Skipped(SplitSuites(SuiteString(text))[i]) <==> SplitSuites(SuiteString(text))[i] == "")
  {
    SuiteStringClean(text);
    var z := DropChars(ToSpace(text, {','}), SuiteQuotes);
    var parts := Split(z, " ");
    SplitAtSpace(z);
    forall i, x | 0 <= i < |parts| && x in parts[i]
      ensures x != ',' && x !in SuiteQuotes
    {
      assert x in z;
    }
    forall i | 0 <= i < |parts|
      ensures Skipped(parts[i]) <==> parts[i] == ""
    {
      assert parts[i] != " " by {
        assert ' ' in " ";
      }
      assert parts[i] != "," by {
        assert ',' in ",";
      }
    }
  }
}
