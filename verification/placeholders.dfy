/** `$FLAG` placeholder substitution in path templates (`findReplaceFlag`) and the fixed,
    ordered flag list that `list_input_files` applies
    (bgcval2/analysis_timeseries.py:94-110, 229-241). */
module Placeholders {
  import opened Outcomes
  import opened Text
  import opened PyValues

  /** The fields of the path configuration object that templates may refer to. */
  datatype PathsConfig = PathsConfig(
    modelFolderPref: string,   // paths.ModelFolder_pref
    obsFolder: string,         // paths.ObsFolder
    orcaGridfn: string,        // paths.orcaGridfn
    bgcval2Repo: string)       // paths.bgcval2_repo

  /** What the process environment supplies: `getpass.getuser()` and the paths. */
  datatype Env = Env(user: string, paths: PathsConfig)

  /** The text `findReplaceFlag` looks for: `'$' + flag.upper()`. */
  function Token(flag: string): (t: string)
    ensures |t| == |flag| + 1 && t[0] == '$'
  {
    "$" + Upper(flag)
  }

  /** `findReplaceFlag(filepath, flag, new_value)`. An absent token leaves the path as it
      is, whatever the value; a present one is replaced everywhere by the value, which
      Python's `str.replace` insists is a string. */
  function FindReplaceFlag(filepath: string, flag: string, newValue: Value): (r: Result<string>)
    ensures !Contains(filepath, Token(flag)) ==> r == Success(filepath)
    ensures Contains(filepath, Token(flag)) ==> (r.Success? <==> newValue.VStr?)
    ensures newValue.VStr? ==>
              var parts := Split(filepath, Token(flag));
              && Join(parts, Token(flag)) == filepath
              && (forall i :: 0 <= i < |parts| ==> !Contains(parts[i], Token(flag)))
              && r == Success(Join(parts, newValue.s))
  {
    var lookingFor := Token(flag);
    if !Contains(filepath, lookingFor) then
      if newValue.VStr? then
        ReplaceIsSplitJoin(filepath, lookingFor, newValue.s);
        ReplaceAbsent(filepath, lookingFor, newValue.s);
        Success(filepath)
      else
        Success(filepath)
    else if newValue.VStr? then
      ReplaceIsSplitJoin(filepath, lookingFor, newValue.s);
      Success(ReplaceAll(filepath, lookingFor, newValue.s))
    else
      Failure(TypeError("replace() argument 2 must be str"))
  }

  /** The five flags substituted in every template, with their values. */
  function FixedSubstitutions(env: Env): seq<(string, Value)> {
    [ ("USERNAME", VStr(env.user)),
      ("basedir_model", VStr(env.paths.modelFolderPref)),
      ("basedir_obs", VStr(env.paths.obsFolder)),
      ("PATHS_GRIDFILE", VStr(env.paths.orcaGridfn)),
      ("PATHS_BGCVAL2", VStr(env.paths.bgcval2Repo)) ]
  }

  /** The key-file entries that may be substituted, in the order they are tried. */
  const ContextFlags: seq<string> := ["jobID", "model", "years", "year", "scenario", "name"]

  /** What one context flag contributes: its upper-cased name and value when the key
      file has a truthy entry for it, nothing otherwise. */
  function ContextSubstitution(ctx: Dict<Value>, flag: string): seq<(string, Value)> {
    var v := Get(ctx, flag, VBool(false));
    if Truthy(v) then [(Upper(flag), v)] else []
  }

  /** The contributions of `flags`, in order. */
  function ContextSubstitutions(ctx: Dict<Value>, flags: seq<string>): seq<(string, Value)>
    decreases |flags|
  {
    if |flags| == 0 then []
    else ContextSubstitution(ctx, flags[0]) + ContextSubstitutions(ctx, flags[1..])
  }

  /** The complete, ordered list of substitutions `list_input_files` applies. */
  function Substitutions(ctx: Dict<Value>, env: Env): seq<(string, Value)> {
    FixedSubstitutions(env) + ContextSubstitutions(ctx, ContextFlags)
  }

  /** Apply `findReplaceFlag` for each substitution in turn; the first error stops. */
  function ApplySubstitutions(path: string, subs: seq<(string, Value)>): Result<string>
    decreases |subs|
  {
    if |subs| == 0 then Success(path)
    else
      var next :- FindReplaceFlag(path, subs[0].0, subs[0].1);
      ApplySubstitutions(next, subs[1..])
  }

  // ---------------------------------------------------------------------------------
  // The flag list

  /** The substitution list always starts with the five fixed flags and then holds, in
      the order `jobID, model, years, year, scenario, name`, exactly the context entries
      that exist and are truthy; so `YEARS` is applied before `YEAR`. */
  lemma SubstitutionOrder(ctx: Dict<Value>, env: Env)
    ensures Substitutions(ctx, env) ==
      FixedSubstitutions(env) + (ContextSubstitution(ctx, "jobID") + (ContextSubstitution(ctx, "model")
      + (ContextSubstitution(ctx, "years") + (ContextSubstitution(ctx, "year")
      + (ContextSubstitution(ctx, "scenario") + ContextSubstitution(ctx, "name"))))))
  {
    var f := ContextFlags;
    assert f[1..] == ["model", "years", "year", "scenario", "name"];
    assert f[1..][1..] == ["years", "year", "scenario", "name"];
    assert f[1..][1..][1..] == ["year", "scenario", "name"];
    assert f[1..][1..][1..][1..] == ["scenario", "name"];
    assert f[1..][1..][1..][1..][1..] == ["name"];
    assert f[1..][1..][1..][1..][1..][1..] == [];
    assert ContextSubstitutions(ctx, ["name"]) == ContextSubstitution(ctx, "name");
  }

  // ---------------------------------------------------------------------------------
  // Templates whose only `$` is the one of a `$YEARS` token

  predicate NoDollar(s: string) {
    '$' !in s
  }

  lemma {:induction false} ContainsAfterDollarFree(a: string, t: string, tok: string)
    requires NoDollar(a) && |tok| > 0 && tok[0] == '$'
    ensures Contains(a + t, tok) <==> Contains(t, tok)
    decreases |a|
  {
    if |a| == 0 {
      assert a + t == t;
    } else {
      assert (a + t)[0] == a[0] != '$';
      assert !(tok <= a + t);
      assert (a + t)[1..] == a[1..] + t;
      assert NoDollar(a[1..]) by { assert forall x :: x in a[1..] ==> x in a; }
      ContainsAfterDollarFree(a[1..], t, tok);
    }
  }

  lemma {:induction false} ReplaceAfterDollarFree(a: string, t: string, pat: string, rep: string)
    requires NoDollar(a) && |pat| > 0 && pat[0] == '$'
    ensures ReplaceAll(a + t, pat, rep) == a + ReplaceAll(t, pat, rep)
    decreases |a|
  {
    if |a| == 0 {
      assert a + t == t;
    } else {
      assert (a + t)[0] == a[0] != '$';
      assert !(pat <= a + t);
      assert (a + t)[1..] == a[1..] + t;
      assert NoDollar(a[1..]) by { assert forall x :: x in a[1..] ==> x in a; }
      ReplaceAfterDollarFree(a[1..], t, pat, rep);
      assert a == [a[0]] + a[1..];
    }
  }

  /** A template without `$` passes through every substitution unchanged. */
  lemma {:induction false} DollarFreeUnchanged(s: string, subs: seq<(string, Value)>)
    requires NoDollar(s)
    ensures ApplySubstitutions(s, subs) == Success(s)
    decreases |subs|
  {
    if |subs| > 0 {
      var tok := Token(subs[0].0);
      if Contains(s, tok) {
        ContainsHead(s, tok);
      }
      DollarFreeUnchanged(s, subs[1..]);
    }
  }

  lemma {:induction false} ApplyAppend(s: string, xs: seq<(string, Value)>, ys: seq<(string, Value)>)
    ensures ApplySubstitutions(s, xs + ys) ==
      match ApplySubstitutions(s, xs)
      case Success(p) => ApplySubstitutions(p, ys)
      case Failure(e) => Failure(e)
    decreases |xs|
  {
    if |xs| == 0 {
      assert xs + ys == ys;
    } else {
      assert (xs + ys)[0] == xs[0];
      assert (xs + ys)[1..] == xs[1..] + ys;
      var r := FindReplaceFlag(s, xs[0].0, xs[0].1);
      if r.Success? {
        ApplyAppend(r.value, xs[1..], ys);
        assert ApplySubstitutions(s, xs + ys) == ApplySubstitutions(r.value, xs[1..] + ys);
        assert ApplySubstitutions(s, xs) == ApplySubstitutions(r.value, xs[1..]);
      } else {
        assert ApplySubstitutions(s, xs + ys) == Failure(r.error);
        assert ApplySubstitutions(s, xs) == Failure(r.error);
      }
    }
  }

  /** A substitution whose token differs in its first letter from the one `$` of
      `a + "$" + w` leaves that template alone. */
  lemma {:induction false} OtherFlagsSkip(a: string, w: string, subs: seq<(string, Value)>)
    requires NoDollar(a) && NoDollar(w) && |w| > 0
    requires forall i :: 0 <= i < |subs| ==> |subs[i].0| > 0 && UpperChar(subs[i].0[0]) != w[0]
    ensures ApplySubstitutions(a + "$" + w, subs) == Success(a + "$" + w)
    decreases |subs|
  {
    if |subs| > 0 {
      var s := a + "$" + w;
      var tok := Token(subs[0].0);
      assert s == a + ("$" + w);
      ContainsAfterDollarFree(a, "$" + w, tok);
      assert tok[1] == UpperChar(subs[0].0[0]);
      assert !(tok <= "$" + w);
      assert ("$" + w)[1..] == w;
      if Contains(w, tok) {
        ContainsHead(w, tok);
      }
      OtherFlagsSkip(a, w, subs[1..]);
    }
  }

  /** Replacing the token `tok` in `a + tok + rest` where only `tok` holds a `$` gives
      `a + value + rest`. */
  lemma {:induction false} ReplaceSoleToken(a: string, tok: string, rest: string, value: string)
    requires NoDollar(a) && NoDollar(rest) && |tok| > 0 && tok[0] == '$'
    ensures Contains(a + tok + rest, tok)
    ensures ReplaceAll(a + tok + rest, tok, value) == a + value + rest
  {
    assert a + tok + rest == a + (tok + rest);
    ContainsAfterDollarFree(a, tok + rest, tok);
    ReplaceAfterDollarFree(a, tok + rest, tok, value);
    assert tok <= tok + rest;
    assert (tok + rest)[|tok|..] == rest;
    if Contains(rest, tok) {
      ContainsHead(rest, tok);
    }
    ReplaceAbsent(rest, tok, value);
  }

  /** A template whose only `$` starts the token of `flag`, run through substitutions of
      which only `flag`'s token matches there: that token is replaced by `v`, nothing
      else changes. */
  lemma {:induction false} OneTokenTemplate(a: string, flag: string, rest: string, v: string,
                                            pre: seq<(string, Value)>, post: seq<(string, Value)>)
    requires NoDollar(a) && NoDollar(Upper(flag)) && NoDollar(rest) && NoDollar(v) && |flag| > 0
    requires forall i :: 0 <= i < |pre| ==> |pre[i].0| > 0 && UpperChar(pre[i].0[0]) != UpperChar(flag[0])
    ensures ApplySubstitutions(a + Token(flag) + rest, pre + ([(flag, VStr(v))] + post)) == Success(a + v + rest)
  {
    var tok := Token(flag);
    var s := a + tok + rest;
    var w := Upper(flag) + rest;
    assert s == a + "$" + w;
    assert NoDollar(w);
    OtherFlagsSkip(a, w, pre);
    var step := [(flag, VStr(v))];
    ApplyAppend(s, pre, step + post);
    ReplaceSoleToken(a, tok, rest, v);
    assert FindReplaceFlag(s, flag, VStr(v)) == Success(a + v + rest);
    assert NoDollar(a + v + rest);
    DollarFreeUnchanged(a + v + rest, post);
    assert (step + post)[0] == step[0];
    assert (step + post)[1..] == post;
  }

  lemma UpperLiterals()
    ensures Upper("years") == "YEARS" == Upper("YEARS")
    ensures Upper("year") == "YEAR" == Upper("YEAR")
  {
  }

  /** The substitutions applied before the `years` step. */
  function BeforeYears(ctx: Dict<Value>, env: Env): seq<(string, Value)> {
    FixedSubstitutions(env) + (ContextSubstitution(ctx, "jobID") + ContextSubstitution(ctx, "model"))
  }

  /** The substitutions applied after the `year` step. */
  function AfterYear(ctx: Dict<Value>): seq<(string, Value)> {
    ContextSubstitution(ctx, "scenario") + ContextSubstitution(ctx, "name")
  }

  /** Every substitution applied before the `years` one has a token whose letter after
      the `$` is not `Y`. */
  lemma FlagsBeforeYears(ctx: Dict<Value>, env: Env)
    ensures forall i :: 0 <= i < |BeforeYears(ctx, env)| ==>
              |BeforeYears(ctx, env)[i].0| > 0 && UpperChar(BeforeYears(ctx, env)[i].0[0]) != 'Y'
  {
  }

  lemma TokenLiterals()
    ensures Token("YEARS") == "$YEARS" && Upper("YEARS") == "YEARS"
    ensures Token("YEAR") == "$YEAR" && Upper("YEAR") == "YEAR"
    ensures Upper("years") == "YEARS" && Upper("year") == "YEAR"
  {
    UpperLiterals();
  }

  /** The substitution list around the `years` and `year` steps. */
  lemma SubstitutionsAroundYears(ctx: Dict<Value>, env: Env)
    ensures Substitutions(ctx, env) ==
              BeforeYears(ctx, env) + (ContextSubstitution(ctx, "years") + (ContextSubstitution(ctx, "year") + AfterYear(ctx)))
  {
    SubstitutionOrder(ctx, env);
  }

  /** `$YEARS` in a template, run through a list whose `YEARS` step is preceded only by
      flags not starting with `Y`, becomes the `years` value. */
  lemma YearsStep(a: string, b: string, years: string, pre: seq<(string, Value)>, post: seq<(string, Value)>)
    requires NoDollar(a) && NoDollar(b) && NoDollar(years)
    requires forall i :: 0 <= i < |pre| ==> |pre[i].0| > 0 && UpperChar(pre[i].0[0]) != 'Y'
    ensures ApplySubstitutions(a + "$YEARS" + b, pre + ([("YEARS", VStr(years))] + post)) == Success(a + years + b)
  {
    TokenLiterals();
    OneTokenTemplate(a, "YEARS", b, years, pre, post);
  }

  /** `$YEARS` in a template, run through a list whose `YEAR` step is preceded only by
      flags not starting with `Y`, becomes the `year` value followed by `S`. */
  lemma YearStep(a: string, b: string, year: string, pre: seq<(string, Value)>, post: seq<(string, Value)>)
    requires NoDollar(a) && NoDollar(b) && NoDollar(year)
    requires forall i :: 0 <= i < |pre| ==> |pre[i].0| > 0 && UpperChar(pre[i].0[0]) != 'Y'
    ensures ApplySubstitutions(a + "$YEARS" + b, pre + ([("YEAR", VStr(year))] + post)) == Success(a + year + "S" + b)
  {
    TokenLiterals();
    assert a + "$YEARS" + b == a + Token("YEAR") + ("S" + b);
    assert NoDollar("S" + b);
    OneTokenTemplate(a, "YEAR", "S" + b, year, pre, post);
    assert a + year + ("S" + b) == a + year + "S" + b;
  }

  /** Why `years` is tried before `year`: when the key file sets `years`, a `$YEARS`
      token is replaced whole by that value, never read as `$YEAR` followed by `S`. */
  lemma YearsTokenReplacedWhole(a: string, b: string, ctx: Dict<Value>, env: Env, years: string)
    requires NoDollar(a) && NoDollar(b) && NoDollar(years) && |years| > 0
    requires Lookup(ctx, "years") == Some(VStr(years))
    ensures ApplySubstitutions(a + "$YEARS" + b, Substitutions(ctx, env)) == Success(a + years + b)
  {
    SubstitutionsAroundYears(ctx, env);
    FlagsBeforeYears(ctx, env);
    TokenLiterals();
    assert ContextSubstitution(ctx, "years") == [("YEARS", VStr(years))];
    YearsStep(a, b, years, BeforeYears(ctx, env), ContextSubstitution(ctx, "year") + AfterYear(ctx));
  }

  /** The hazard that ordering avoids: with no truthy `years` entry but a `year` entry, a
      `$YEARS` token is rewritten as the `year` value followed by a stray `S`. */
  lemma YearRewritesYearsPrefix(a: string, b: string, ctx: Dict<Value>, env: Env, year: string)
    requires NoDollar(a) && NoDollar(b) && NoDollar(year) && |year| > 0
    requires !Truthy(Get(ctx, "years", VBool(false)))
    requires Lookup(ctx, "year") == Some(VStr(year))
    ensures ApplySubstitutions(a + "$YEARS" + b, Substitutions(ctx, env)) == Success(a + year + "S" + b)
  {
    SubstitutionsAroundYears(ctx, env);
    FlagsBeforeYears(ctx, env);
    var yearStep := [("YEAR", VStr(year))];
    assert ContextSubstitution(ctx, "year") == yearStep by {
      TokenLiterals();
    }
    assert ContextSubstitution(ctx, "years") + (ContextSubstitution(ctx, "year") + AfterYear(ctx))
           == yearStep + AfterYear(ctx) by {
      assert ContextSubstitution(ctx, "years") == [];
    }
    YearStep(a, b, year, BeforeYears(ctx, env), AfterYear(ctx));
  }
}
