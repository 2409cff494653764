/** What the generated Python client runs on: Python values, the contract's wire values, and the conversion functions
    of `stellar_sdk.scval`, each `from_X` undoing `to_X`. A raised exception is None. */
module PyRuntime {
  import opened Wrappers

  // ---------- values ----------

  /** The scalar kinds that `scval.to_X` and `scval.from_X` convert. */
  datatype ScKind =
    | ScBool | ScUint32 | ScInt32 | ScUint64 | ScInt64 | ScUint128 | ScInt128 | ScUint256 | ScInt256
    | ScTimepoint | ScDuration | ScBytes | ScString | ScSymbol | ScAddress

  /** The Python types of scalar values. */
  datatype PyKind = PyBool | PyInt | PyBytes | PyStr | PyAddress

  datatype Entry<+K, +V> = Entry(key: K, val: V)

  /** A wire value. Scalar contents are numbered; a struct and a tagged enum are kept apart from the map and the
      vector that carry them. */
  datatype ScVal =
    | SvVoid
    | SvScalar(kind: ScKind, data: int)
    | SvVec(items: seq<ScVal>)
    | SvMap(pairs: seq<Entry<ScVal, ScVal>>)
    | SvStruct(members: seq<Entry<string, ScVal>>)
    | SvEnum(tag: string, payload: seq<ScVal>)

  /** A Python value. A dictionary keeps its insertion order; `Record` is one with string keys. */
  datatype Val =
    | PyNone
    | Prim(py: PyKind, data: int)
    | List(items: seq<Val>)
    | Tuple(items: seq<Val>)
    | Dict(pairs: seq<Entry<Val, Val>>)
    | Record(members: seq<Entry<string, Val>>)
    | Obj(cls: string, fields: seq<Entry<string, Val>>)
    | Sc(sc: ScVal)

  // ---------- lists of results ----------

  /** The results if none is an exception. */
  function Collect<T>(xs: seq<Option<T>>): (r: Option<seq<T>>)
    ensures r.Some? <==> forall i :: 0 <= i < |xs| ==> xs[i].Some?
    ensures r.Some? ==> |r.value| == |xs| && forall i :: 0 <= i < |xs| ==> xs[i] == Some(r.value[i])
  {
    if forall i :: 0 <= i < |xs| ==> xs[i].Some?
    then Some(seq(|xs|, i requires 0 <= i < |xs| && xs[i].Some? => xs[i].value))
    else None
  }

  function Wrap(xs: seq<ScVal>): (r: seq<Val>)
    ensures |r| == |xs| && forall i :: 0 <= i < |xs| ==> r[i] == Sc(xs[i])
  {
    seq(|xs|, i requires 0 <= i < |xs| => Sc(xs[i]))
  }

  predicate AllSc(vs: seq<Val>) {
    forall i :: 0 <= i < |vs| ==> vs[i].Sc?
  }

  function Unwrap(vs: seq<Val>): (r: seq<ScVal>)
    requires AllSc(vs)
    ensures |r| == |vs| && forall i :: 0 <= i < |vs| ==> r[i] == vs[i].sc
  {
    seq(|vs|, i requires 0 <= i < |vs| => vs[i].sc)
  }

  // ---------- dictionaries ----------

  predicate DistinctKeys<K(==), V>(es: seq<Entry<K, V>>) {
    forall i, j :: 0 <= i < j < |es| ==> es[i].key != es[j].key
  }

  /** `d[k] = v`: an existing key keeps its place. */
  function Put<K(==), V>(es: seq<Entry<K, V>>, k: K, v: V): (r: seq<Entry<K, V>>) {
    if es == [] then [Entry(k, v)]
    else if es[0].key == k then [Entry(k, v)] + es[1..]
    else [es[0]] + Put(es[1..], k, v)
  }

  /** A dictionary display or comprehension. */
  function Build<K(==), V>(es: seq<Entry<K, V>>): (r: seq<Entry<K, V>>) {
    if es == [] then [] else Put(Build(es[..|es| - 1]), es[|es| - 1].key, es[|es| - 1].val)
  }

  function Zip(ks: seq<Val>, vs: seq<Val>): (r: seq<Entry<Val, Val>>)
    requires |ks| == |vs|
    ensures |r| == |ks| && forall i :: 0 <= i < |ks| ==> r[i] == Entry(ks[i], vs[i])
  {
    seq(|ks|, i requires 0 <= i < |ks| => Entry(ks[i], vs[i]))
  }

  function Keys(es: seq<Entry<Val, Val>>): (r: seq<Val>)
    ensures |r| == |es| && forall i :: 0 <= i < |es| ==> r[i] == es[i].key
  {
    seq(|es|, i requires 0 <= i < |es| => es[i].key)
  }

  function Values(es: seq<Entry<Val, Val>>): (r: seq<Val>)
    ensures |r| == |es| && forall i :: 0 <= i < |es| ==> r[i] == es[i].val
  {
    seq(|es|, i requires 0 <= i < |es| => es[i].val)
  }

  function Lookup<V>(es: seq<Entry<string, V>>, name: string): Option<V> {
    if es == [] then None else if es[0].key == name then Some(es[0].val) else Lookup(es[1..], name)
  }

  /** Lists and dictionaries are not hashable, and neither are dataclasses that are not frozen. */
  predicate Hashable(v: Val) {
    match v
    case PyNone => true
    case Prim(_, _) => true
    case Tuple(items) => forall i :: 0 <= i < |items| ==> Hashable(items[i])
    case Sc(_) => true
    case _ => false
  }

  lemma {:induction false} PutNewKey<K, V>(es: seq<Entry<K, V>>, k: K, v: V)
    requires forall i :: 0 <= i < |es| ==> es[i].key != k
    ensures Put(es, k, v) == es + [Entry(k, v)]
    decreases |es|
  {
    if es != [] {
      PutNewKey(es[1..], k, v);
      assert [es[0]] + (es[1..] + [Entry(k, v)]) == es + [Entry(k, v)];
    }
  }

  /** Keys that differ all end up in the dictionary, in order. */
  lemma {:induction false} BuildDistinct<K, V>(es: seq<Entry<K, V>>)
    requires DistinctKeys(es)
    ensures Build(es) == es
    decreases |es|
  {
    hide Put;
    if es != [] {
      var init := es[..|es| - 1];
      assert forall i :: 0 <= i < |init| ==> init[i] == es[i];
      BuildDistinct(init);
      PutNewKey(init, es[|es| - 1].key, es[|es| - 1].val);
    }
  }

  lemma {:induction false} PutKeys<K, V>(es: seq<Entry<K, V>>, k: K, v: V)
    requires DistinctKeys(es)
    ensures DistinctKeys(Put(es, k, v))
    ensures forall e :: e in Put(es, k, v) ==> e in es || e == Entry(k, v)
    decreases |es|
  {
    if es != [] && es[0].key != k {
      var t := Put(es[1..], k, v);
      PutKeys(es[1..], k, v);
      assert Put(es, k, v) == [es[0]] + t;
      forall i, j | 0 <= i < j < |t| + 1 ensures ([es[0]] + t)[i].key != ([es[0]] + t)[j].key {
        if i == 0 {
          assert t[j - 1] in t;
        }
      }
    }
  }

  /** A dictionary never has a key twice, and holds nothing that was not put in. */
  lemma {:induction false} BuildKeys<K, V>(es: seq<Entry<K, V>>)
    ensures DistinctKeys(Build(es))
    ensures forall e :: e in Build(es) ==> e in es
    decreases |es|
  {
    if es != [] {
      BuildKeys(es[..|es| - 1]);
      PutKeys(Build(es[..|es| - 1]), es[|es| - 1].key, es[|es| - 1].val);
    }
  }

  lemma {:induction false} LookupAt<V>(es: seq<Entry<string, V>>, i: nat)
    requires DistinctKeys(es) && i < |es|
    ensures Lookup(es, es[i].key) == Some(es[i].val)
    decreases |es|
  {
    if i > 0 {
      LookupAt(es[1..], i - 1);
    }
  }

  // ---------- stellar_sdk.scval ----------

  function NativeOf(k: ScKind): PyKind {
    match k
    case ScBool => PyBool
    case ScBytes => PyBytes
    case ScString => PyBytes
    case ScSymbol => PyStr
    case ScAddress => PyAddress
    case _ => PyInt
  }

  /** The integers a wire kind can hold. */
  predicate InRange(k: ScKind, d: int) {
    match k
    case ScUint32 => 0 <= d < 0x1_0000_0000
    case ScInt32 => -0x8000_0000 <= d < 0x8000_0000
    case ScUint64 => 0 <= d < 0x1_0000_0000_0000_0000
    case ScInt64 => -0x8000_0000_0000_0000 <= d < 0x8000_0000_0000_0000
    case ScTimepoint => 0 <= d < 0x1_0000_0000_0000_0000
    case ScDuration => 0 <= d < 0x1_0000_0000_0000_0000
    case ScUint128 => 0 <= d < 0x1_0000_0000_0000_0000_0000_0000_0000_0000
    case ScInt128 => -0x8000_0000_0000_0000_0000_0000_0000_0000 <= d < 0x8000_0000_0000_0000_0000_0000_0000_0000
    case ScUint256 =>
      0 <= d < 0x1_0000_0000_0000_0000_0000_0000_0000_0000_0000_0000_0000_0000_0000_0000_0000_0000
    case ScInt256 =>
      -0x8000_0000_0000_0000_0000_0000_0000_0000_0000_0000_0000_0000_0000_0000_0000_0000 <= d
      < 0x8000_0000_0000_0000_0000_0000_0000_0000_0000_0000_0000_0000_0000_0000_0000_0000
    case _ => true
  }

  datatype Builtin = FromVoid | To(k: ScKind) | From(k: ScKind) | ToVec | FromVec | ToMap | FromMap

  /** A call of one of the conversions; an argument that raised stays raised. */
  function RunBuiltin(f: Builtin, a: Option<Val>): Option<Val> {
    if a.None? then None
    else
      var v := a.value;
      match f
      case FromVoid => if v == Sc(SvVoid) then Some(PyNone) else None
      case To(k) =>
        if v.Prim? && v.py == NativeOf(k) && InRange(k, v.data) then Some(Sc(SvScalar(k, v.data))) else None
      case From(k) =>
        if v.Sc? && v.sc.SvScalar? && v.sc.kind == k then Some(Prim(NativeOf(k), v.sc.data)) else None
      case ToVec => if v.List? && AllSc(v.items) then Some(Sc(SvVec(Unwrap(v.items)))) else None
      case FromVec => if v.Sc? && v.sc.SvVec? then Some(List(Wrap(v.sc.items))) else None
      case ToMap => ToMapOf(v)
      case FromMap => FromMapOf(v)
  }

  function ToMapOf(v: Val): Option<Val> {
    if v.Dict? && forall i :: 0 <= i < |v.pairs| ==> v.pairs[i].key.Sc? && v.pairs[i].val.Sc? then
      Some(Sc(SvMap(seq(|v.pairs|, i requires 0 <= i < |v.pairs| && v.pairs[i].key.Sc? && v.pairs[i].val.Sc? =>
                          Entry(v.pairs[i].key.sc, v.pairs[i].val.sc)))))
    else None
  }

  function FromMapOf(v: Val): Option<Val> {
    if v.Sc? && v.sc.SvMap? then
      var d := Build(v.sc.pairs);
      Some(Dict(seq(|d|, i requires 0 <= i < |d| => Entry(Sc(d[i].key), Sc(d[i].val)))))
    else None
  }

  /** What a `for` loop over a list or a tuple runs over. */
  function Iterate(a: Option<Val>): Option<seq<Val>> {
    if a.Some? && (a.value.List? || a.value.Tuple?) then Some(a.value.items) else None
  }

  /** `.items()` of a dictionary */
  function Items(a: Option<Val>): Option<seq<Entry<Val, Val>>> {
    if a.Some? && a.value.Dict? then Some(a.value.pairs) else None
  }

  /** `v[i]` of a list or a tuple */
  function At(a: Option<Val>, i: nat): Option<Val> {
    if a.Some? && (a.value.List? || a.value.Tuple?) && i < |a.value.items| then Some(a.value.items[i]) else None
  }

  /** `v["name"]` */
  function Member(a: Option<Val>, name: string): Option<Val> {
    if a.Some? && a.value.Record? then Lookup(a.value.members, name) else None
  }

  /** `v.name` */
  function Attribute(a: Option<Val>, name: string): Option<Val> {
    if a.Some? && a.value.Obj? then Lookup(a.value.fields, name) else None
  }

  function MakeList(vs: Option<seq<Val>>): Option<Val> {
    if vs.None? then None else Some(List(vs.value))
  }

  /** A dictionary comprehension over evaluated keys and values. */
  function MakeDict(ks: Option<seq<Val>>, vs: Option<seq<Val>>): Option<Val> {
    if ks.None? || vs.None? || |ks.value| != |vs.value| then None
    else if exists i :: 0 <= i < |ks.value| && !Hashable(ks.value[i]) then None
    else Some(Dict(Build(Zip(ks.value, vs.value))))
  }

  /** A parenthesised list of items: one item without a comma is the item itself. */
  function Parenthesised(vs: Option<seq<Val>>): Option<Val> {
    if vs.None? then None else if |vs.value| == 1 then Some(vs.value[0]) else Some(Tuple(vs.value))
  }

  /** The map conversions are an inverse pair on dictionaries of wire values. */
  lemma {:induction false} MapConversions(es: seq<Entry<Val, Val>>, m: Val)
    requires DistinctKeys(es)
    requires RunBuiltin(ToMap, Some(Dict(es))) == Some(m)
    ensures RunBuiltin(FromMap, Some(m)) == Some(Dict(es))
  {
    var ps := m.sc.pairs;
    assert forall i :: 0 <= i < |es| ==> ps[i] == Entry(es[i].key.sc, es[i].val.sc);
    assert DistinctKeys(ps);
    BuildDistinct(ps);
    assert FromMapOf(m).value.pairs == es;
  }
}
