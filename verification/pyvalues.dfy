/** The Python values a YAML configuration file can hold, their truthiness, and the
    insertion-ordered `dict` operations the configuration layer performs on them. */
module PyValues {
  import opened Outcomes

  /** A value produced by `yaml.safe_load` (floats and dates are not modelled). Mapping
      keys are strings; other YAML keys are not modelled. */
  datatype Value =
    | VNone
    | VBool(b: bool)
    | VInt(i: int)
    | VStr(s: string)
    | VList(items: seq<Value>)
    | VDict(entries: Dict<Value>)

  /** A Python `dict`: its items in insertion order. */
  type Dict<V> = seq<(string, V)>

  /** Python's `bool(v)`. */
  predicate Truthy(v: Value) {
    match v
    case VNone => false
    case VBool(b) => b
    case VInt(i) => i != 0
    case VStr(s) => |s| > 0
    case VList(items) => |items| > 0
    case VDict(entries) => |entries| > 0
  }

  /** Python's `v == 1` (in Python `True == 1` holds as well). */
  predicate EqualsOne(v: Value) {
    v == VInt(1) || v == VBool(true)
  }

  /** Lists and dicts cannot be dictionary keys or `in`-tested against a dict. */
  predicate Hashable(v: Value) {
    !v.VList? && !v.VDict?
  }

  /** Python's `str(n)` for an integer. */
  function IntText(n: int): (r: string)
    ensures |r| > 0
    decreases if n < 0 then 1 - n else n
  {
    if n < 0 then "-" + IntText(-n)
    else if n < 10 then ["0123456789"[n]]
    else IntText(n / 10) + ["0123456789"[n % 10]]
  }

  /** How a dictionary key that is not a string shows in a `KeyError`. */
  function KeyText(v: Value): string
    requires Hashable(v)
  {
    match v
    case VNone => "None"
    case VBool(b) => if b then "True" else "False"
    case VInt(i) => IntText(i)
    case VStr(s) => s
  }

  function Keys<V>(d: Dict<V>): seq<string> {
    seq(|d|, i requires 0 <= i < |d| => d[i].0)
  }

  /** `k in d`. */
  predicate HasKey<V>(d: Dict<V>, k: string) {
    k in Keys(d)
  }

  /** No element occurs twice. */
  predicate Distinct<T(==)>(s: seq<T>) {
    forall i, j :: 0 <= i < j < |s| ==> s[i] != s[j]
  }

  predicate UniqueKeys<V>(d: Dict<V>) {
    Distinct(Keys(d))
  }

  /** The value stored under `k`, if any. */
  function Lookup<V>(d: Dict<V>, k: string): (r: Option<V>)
    ensures r.Some? <==> HasKey(d, k)
    decreases |d|
  {
    if |d| == 0 then None
    else if d[0].0 == k then
      assert Keys(d)[0] == k;
      Some(d[0].1)
    else
      assert Keys(d) == [d[0].0] + Keys(d[1..]);
      Lookup(d[1..], k)
  }

  /** `d.get(k, default)`. */
  function Get<V>(d: Dict<V>, k: string, default: V): V {
    match Lookup(d, k)
    case Some(v) => v
    case None => default
  }

  /** `d[k]`, which raises `KeyError` for a missing key. */
  function Index<V>(d: Dict<V>, k: string): (r: Result<V>)
    ensures r.Success? <==> HasKey(d, k)
    ensures r.Failure? ==> r.error == KeyError(k)
    ensures r.Success? ==> Lookup(d, k) == Some(r.value)
  {
    match Lookup(d, k)
    case Some(v) => Success(v)
    case None => Failure(KeyError(k))
  }

  /** `d[k] = v`: an existing key keeps its position, a new key goes last. */
  function Store<V>(d: Dict<V>, k: string, v: V): (r: Dict<V>)
    ensures Lookup(r, k) == Some(v)
    ensures forall k' :: k' != k ==> Lookup(r, k') == Lookup(d, k')
    ensures HasKey(d, k) ==> Keys(r) == Keys(d)
    ensures !HasKey(d, k) ==> Keys(r) == Keys(d) + [k]
    decreases |d|
  {
    if |d| == 0 then [(k, v)]
    else if d[0].0 == k then
      assert Keys(d) == [k] + Keys(d[1..]);
      assert Keys([(k, v)] + d[1..]) == [k] + Keys(d[1..]);
      [(k, v)] + d[1..]
    else
      var tail := Store(d[1..], k, v);
      assert Keys(d) == [d[0].0] + Keys(d[1..]);
      assert Keys([d[0]] + tail) == [d[0].0] + Keys(tail);
      [d[0]] + tail
  }

  /** Dropping the first item of a dictionary with distinct keys leaves distinct keys,
      none of which is the dropped one. */
  lemma UniqueKeysTail<V>(d: Dict<V>)
    requires |d| > 0 && UniqueKeys(d)
    ensures UniqueKeys(d[1..])
    ensures !HasKey(d[1..], d[0].0)
  {
    var ks := Keys(d);
    assert Keys(d[1..]) == ks[1..];
    forall i | 0 <= i < |ks| - 1
      ensures ks[1..][i] != d[0].0
    {
      assert ks[0] == d[0].0 && ks[1..][i] == ks[i + 1];
    }
  }

  /** Assigning a key that is not present appends it. */
  lemma {:induction false} StoreNewKey<V>(d: Dict<V>, k: string, v: V)
    requires !HasKey(d, k)
    ensures Store(d, k, v) == d + [(k, v)]
    decreases |d|
  {
    if |d| > 0 {
      assert Keys(d) == [d[0].0] + Keys(d[1..]);
      StoreNewKey(d[1..], k, v);
      assert [d[0]] + (d[1..] + [(k, v)]) == d + [(k, v)];
    }
  }

  /** Appending an item adds its key and no other. */
  lemma AppendKeys<V>(d: Dict<V>, item: (string, V))
    ensures forall k :: HasKey(d + [item], k) <==> HasKey(d, k) || k == item.0
  {
    assert Keys(d + [item]) == Keys(d) + [item.0];
  }

  /** Assignment keeps the keys of a dictionary distinct. */
  lemma StoreKeepsKeysUnique<V>(d: Dict<V>, k: string, v: V)
    requires UniqueKeys(d)
    ensures UniqueKeys(Store(d, k, v))
  {
    if !HasKey(d, k) {
      var ks := Keys(d) + [k];
      assert forall i :: 0 <= i < |Keys(d)| ==> ks[i] == Keys(d)[i];
    }
  }
}
