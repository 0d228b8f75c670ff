/** `get_kwargs_from_dict` and `load_function` (bgcval2/analysis_timeseries.py:174-226):
    resolving the conversion descriptor of a key file to a function and its keyword
    arguments.

    A descriptor is either the name of a standard function or a mapping with `function`,
    optionally `path`, and further keyword arguments. The standard-function table, the
    filesystem and what a Python source file defines are oracles; importing the file is
    assumed to succeed. */
module FunctionLoader {
  import opened Outcomes
  import opened PyValues
  import opened PosixPath
  import opened FileSets

  /** A resolved conversion function. */
  datatype Function =
    | Std(name: string)                     // std_functions[name]
    | External(path: string, name: string)  // getattr(<module loaded from path>, name)

  /** What resolving a function may consult besides the filesystem: the names in
      `std_functions`, which names a source file defines, and the repository directory
      (two levels above the module). */
  datatype Loader = Loader(stdFunctions: set<string>, defines: (string, string) -> bool, repoDir: string)

  /** The descriptor entries that are not keyword arguments. */
  predicate Avoided(key: string) {
    key == "path" || key == "function"
  }

  // ---------------------------------------------------------------------------------
  // Keyword arguments

  /** The loop of `get_kwargs_from_dict`: every entry whose key is not avoided is assigned
      into `kwargs` in turn. */
  function KwargsLoop(kwargs: Dict<Value>, items: Dict<Value>): Dict<Value>
    decreases |items|
  {
    if |items| == 0 then kwargs
    else
      var next := if Avoided(items[0].0) then kwargs else Store(kwargs, items[0].0, items[0].1);
      KwargsLoop(next, items[1..])
  }

  /** `get_kwargs_from_dict(convert_dict)`. */
  function GetKwargs(d: Dict<Value>): Dict<Value> {
    KwargsLoop([], d)
  }

  /** The reference: the descriptor's entries in order, with `path` and `function` left
      out. */
  function Without(d: Dict<Value>): (r: Dict<Value>)
    ensures forall k :: Lookup(r, k) == if Avoided(k) then None else Lookup(d, k)
    ensures forall i :: 0 <= i < |r| ==> r[i] in d && !Avoided(r[i].0)
    decreases |d|
  {
    if |d| == 0 then []
    else
      var rest := Without(d[1..]);
      if Avoided(d[0].0) then rest else [d[0]] + rest
  }

  /** The loop appends the entries it keeps when the keys are distinct and new. */
  lemma {:induction false} KwargsLoopAppends(kwargs: Dict<Value>, items: Dict<Value>)
    requires UniqueKeys(items)
    requires forall i :: 0 <= i < |items| ==> !HasKey(kwargs, items[i].0)
    ensures KwargsLoop(kwargs, items) == kwargs + Without(items)
    decreases |items|
  {
    if |items| > 0 {
      UniqueKeysTail(items);
      var next := if Avoided(items[0].0) then kwargs else kwargs + [items[0]];
      KwargsStep(kwargs, items);
      KwargsLoopAppends(next, items[1..]);
    }
  }

  /** One step of the loop keeps the remaining keys new. */
  lemma KwargsStep(kwargs: Dict<Value>, items: Dict<Value>)
    requires |items| > 0 && UniqueKeys(items)
    requires forall i :: 0 <= i < |items| ==> !HasKey(kwargs, items[i].0)
    ensures KwargsLoop(kwargs, items) ==
              KwargsLoop(if Avoided(items[0].0) then kwargs else kwargs + [items[0]], items[1..])
    ensures Without(items) == if Avoided(items[0].0) then Without(items[1..]) else [items[0]] + Without(items[1..])
    ensures forall i :: 0 <= i < |items[1..]| ==>
              !HasKey(if Avoided(items[0].0) then kwargs else kwargs + [items[0]], items[1..][i].0)
  {
    var k := items[0].0;
    UniqueKeysTail(items);
    assert !HasKey(kwargs, k);
    StoreNewKey(kwargs, k, items[0].1);
    assert items[0] == (k, items[0].1);
    forall i | 0 <= i < |items[1..]|
      ensures !HasKey(kwargs, items[1..][i].0) && items[1..][i].0 != k
    {
      assert items[1..][i] == items[i + 1];
      assert Keys(items[1..])[i] == items[1..][i].0;
    }
    AppendKeys(kwargs, items[0]);
  }

  /** The keyword arguments are exactly the descriptor's entries other than `path` and
      `function`, in the descriptor's order and with their values unchanged. */
  lemma KwargsAreDescriptorWithout(d: Dict<Value>)
    requires UniqueKeys(d)
    ensures GetKwargs(d) == Without(d)
    ensures forall k :: Lookup(GetKwargs(d), k) == if Avoided(k) then None else Lookup(d, k)
  {
    KwargsLoopAppends([], d);
  }

  // ---------------------------------------------------------------------------------
  // Loading

  /** A path beginning with `bgcval2` is taken relative to the repository. */
  function ResolvePath(repoDir: string, funcPath: string): string {
    if "bgcval2" <= funcPath then PathJoin(repoDir, funcPath) else funcPath
  }

  /** `load_function(convert)`: the function a descriptor names and its keyword
      arguments. */
  function LoadFunction(convert: Value, ld: Loader, fs: FileSystem): (r: Result<(Function, Dict<Value>)>)
    ensures convert.VStr? && convert.s in ld.stdFunctions ==> r == Success((Std(convert.s), []))
    ensures !(convert.VStr? && convert.s in ld.stdFunctions) && !convert.VDict? ==> r == Failure(AttributeError("get"))
    ensures convert.VDict? && !Truthy(Get(convert.entries, "function", VBool(false))) ==> r == Failure(KeyError("function"))
    ensures r.Success? && r.value.0.Std? ==> r.value.0.name in ld.stdFunctions
    ensures r.Success? && convert.VDict? ==>
              Get(convert.entries, "function", VBool(false)) == VStr(r.value.0.name)
              && r.value.1 == GetKwargs(convert.entries)
    ensures r.Success? && r.value.0.External? ==>
              convert.VDict?
              && r.value.0.name !in ld.stdFunctions
              && Get(convert.entries, "path", VBool(false)).VStr?
              && r.value.0.path == ResolvePath(ld.repoDir, Get(convert.entries, "path", VBool(false)).s)
              && PathExists(fs, r.value.0.path)
              && ld.defines(r.value.0.path, r.value.0.name)
    ensures convert.VDict? ==>
              var name := Get(convert.entries, "function", VBool(false));
              name.VStr? && |name.s| > 0 && name.s in ld.stdFunctions ==>
                r == Success((Std(name.s), GetKwargs(convert.entries)))
    ensures convert.VDict? ==>
              var name := Get(convert.entries, "function", VBool(false));
              var funcPath := Get(convert.entries, "path", VBool(false));
              && name.VStr? && |name.s| > 0 && name.s !in ld.stdFunctions
              && funcPath.VStr? && |funcPath.s| > 0 ==>
                var path := ResolvePath(ld.repoDir, funcPath.s);
                && (!PathExists(fs, path) ==> r == Failure(FileNotFound(path)))
                && (PathExists(fs, path) && !ld.defines(path, name.s) ==> r == Failure(AttributeError(name.s)))
                && (PathExists(fs, path) && ld.defines(path, name.s) ==>
                      r == Success((External(path, name.s), GetKwargs(convert.entries))))
  {
    if convert.VStr? && convert.s in ld.stdFunctions then Success((Std(convert.s), []))
    else if !convert.VDict? then Failure(AttributeError("get"))
    else
      var d := convert.entries;
      var functionName := Get(d, "function", VBool(false));
      if !Truthy(functionName) then Failure(KeyError("function"))
      else if !Hashable(functionName) then Failure(TypeError("unhashable type"))
      else if functionName.VStr? && functionName.s in ld.stdFunctions then
        Success((Std(functionName.s), GetKwargs(d)))
      else
        var funcPath := Get(d, "path", VBool(false));
        if !Truthy(funcPath) then Failure(KeyError("path"))
        else if !funcPath.VStr? then Failure(TypeError("path is not subscriptable as a string"))
        else
          var path := ResolvePath(ld.repoDir, funcPath.s);
          if !PathExists(fs, path) then Failure(FileNotFound(path))
          else if !functionName.VStr? then Failure(TypeError("attribute name must be string"))
          else if !ld.defines(path, functionName.s) then Failure(AttributeError(functionName.s))
          else Success((External(path, functionName.s), GetKwargs(d)))
  }

  /** A descriptor naming a function that is not standard, with no usable `path`, is
      refused with `KeyError`. */
  lemma MissingPathRefused(d: Dict<Value>, name: string, ld: Loader, fs: FileSystem)
    requires Lookup(d, "function") == Some(VStr(name)) && |name| > 0 && name !in ld.stdFunctions
    requires !Truthy(Get(d, "path", VBool(false)))
    ensures LoadFunction(VDict(d), ld, fs) == Failure(KeyError("path"))
  {
  }

  /** A function file that does not exist, after a `bgcval2` prefix has been resolved
      against the repository, is refused with `FileNotFoundError` naming that path. */
  lemma MissingFileRefused(d: Dict<Value>, name: string, p: string, ld: Loader, fs: FileSystem)
    requires Lookup(d, "function") == Some(VStr(name)) && |name| > 0 && name !in ld.stdFunctions
    requires Lookup(d, "path") == Some(VStr(p)) && |p| > 0
    requires !PathExists(fs, ResolvePath(ld.repoDir, p))
    ensures LoadFunction(VDict(d), ld, fs) == Failure(FileNotFound(ResolvePath(ld.repoDir, p)))
  {
  }

  /** The two descriptors of the integration tests: `{path, function}` gives no keyword
      arguments, and an extra `cow: moo` gives exactly `{cow: moo}`. */
  lemma LoadFunctionTestDescriptors(p: string, ld: Loader, fs: FileSystem)
    requires |p| > 0 && !("bgcval2" <= p) && PathExists(fs, p)
    requires "myfunc" !in ld.stdFunctions && ld.defines(p, "myfunc")
    ensures LoadFunction(VDict([("path", VStr(p)), ("function", VStr("myfunc"))]), ld, fs)
              == Success((External(p, "myfunc"), []))
    ensures LoadFunction(VDict([("path", VStr(p)), ("function", VStr("myfunc")), ("cow", VStr("moo"))]), ld, fs)
              == Success((External(p, "myfunc"), [("cow", VStr("moo"))]))
  {
    var d1 := [("path", VStr(p)), ("function", VStr("myfunc"))];
    var d2 := [("path", VStr(p)), ("function", VStr("myfunc")), ("cow", VStr("moo"))];
    DescriptorLookups(d1, p);
    DescriptorLookups(d2, p);
    PlainDescriptorKwargs(p);
    CowDescriptorKwargs(p);
  }

  /** The `function` and `path` entries of a test descriptor. */
  lemma DescriptorLookups(d: Dict<Value>, p: string)
    requires |d| >= 2 && d[0] == ("path", VStr(p)) && d[1] == ("function", VStr("myfunc"))
    ensures Lookup(d, "function") == Some(VStr("myfunc"))
    ensures Lookup(d, "path") == Some(VStr(p))
  {
    assert d[1..][0] == d[1];
  }

  lemma PlainDescriptorKwargs(p: string)
    ensures GetKwargs([("path", VStr(p)), ("function", VStr("myfunc"))]) == []
  {
    var d := [("path", VStr(p)), ("function", VStr("myfunc"))];
    assert Keys(d) == ["path", "function"];
    KwargsAreDescriptorWithout(d);
    assert d[1..][1..] == [];
  }

  lemma CowDescriptorKwargs(p: string)
    ensures GetKwargs([("path", VStr(p)), ("function", VStr("myfunc")), ("cow", VStr("moo"))])
              == [("cow", VStr("moo"))]
  {
    var d := [("path", VStr(p)), ("function", VStr("myfunc")), ("cow", VStr("moo"))];
    assert Keys(d) == ["path", "function", "cow"];
    KwargsAreDescriptorWithout(d);
    assert d[1..][1..] == [("cow", VStr("moo"))];
    assert d[1..][1..][1..] == [];
    assert Without(d[1..][1..]) == [("cow", VStr("moo"))] + Without(d[1..][1..][1..]);
  }
}
