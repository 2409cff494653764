/** The codec of a tagged enum: a chain of arms over `scval.from_enum` and a chain of `isinstance` arms over
    `scval.to_enum`, whose data is nothing, one bare value or a list, depending on the arity of the case. */
module PyUnion {
  import opened PyRuntime
  import opened PyCodec
  import opened PyRoundTrip
  import opened Wrappers

  datatype Case = VoidCase(name: string) | TupleCase(name: string, types: seq<Ty>)

  datatype Union = Union(name: string, cases: seq<Case>)

  predicate DistinctCases(def: Union) {
    forall i, j :: 0 <= i < j < |def.cases| ==> def.cases[i].name != def.cases[j].name
  }

  /** The generated code for the union parses: its name can be assigned to, `{union}_{case}` is a name, there is a case,
      and none has an empty list of types, which would be annotated `values: tuple[]`. */
  predicate Parses(def: Union) {
    && ValidClass(def.name) && def.cases != []
    && (forall i :: 0 <= i < |def.cases| ==> AllIdentifierParts(def.cases[i].name))
    && (forall i :: 0 <= i < |def.cases| ==> def.cases[i].TupleCase? ==> def.cases[i].types != [])
  }

  /** Exactly then all its classes have names and none has an empty annotation. */
  lemma {:induction false} ClassNamesAreNames(def: Union, c: Case)
    requires ValidClass(def.name)
    ensures IsIdentifier(ClassName(def, c)) <==> AllIdentifierParts(c.name)
  {
    hide IsKeyword;
    var name := ClassName(def, c);
    assert forall i :: 0 <= i < |c.name| ==> name[|def.name| + 1 + i] == c.name[i];
  }

  // ---------- the library ----------

  function ToEnum(tag: string, data: Option<Val>): Option<Val> {
    if data.None? then None
    else
      match data.value
      case PyNone => Some(Sc(SvEnum(tag, [])))
      case Sc(s) => Some(Sc(SvEnum(tag, [s])))
      case List(items) => if AllSc(items) then Some(Sc(SvEnum(tag, Unwrap(items)))) else None
      case _ => None
  }

  /** The second component of `from_enum`. */
  function EnumData(s: ScVal): Val
    requires s.SvEnum?
  {
    if s.payload == [] then PyNone else if |s.payload| == 1 then Sc(s.payload[0]) else List(Wrap(s.payload))
  }

  // ---------- the emitted functions ----------

  datatype Check = NoCheck | AssertScVal | AssertList

  /** `if _tag == tag: assert ...; return cls(values=(...))`, the values of a case without any being left out */
  datatype DecodeArm = DecodeArm(tag: string, cls: string, check: Check, values: seq<Expr>)

  /** `if isinstance(value, cls): return scval.to_enum(tag, data)` */
  datatype EncodeArm = EncodeArm(cls: string, tag: string, data: Expr)

  const DATA := Variable("_data")
  const VALUE := Variable("value")
  const VALUES: string := "values"

  function ClassName(def: Union, c: Case): string {
    def.name + ['_'] + c.name
  }

  function DecodeValues(types: seq<Ty>): (r: seq<Expr>)
    ensures |r| == |types|
  {
    if |types| == 1 then [DecodeExpr(types[0], Var(DATA))]
    else seq(|types|, i requires 0 <= i < |types| => DecodeExpr(types[i], Index(Var(DATA), i)))
  }

  function DecodeArmOf(def: Union, c: Case): DecodeArm {
    match c
    case VoidCase(name) => DecodeArm(name, ClassName(def, c), NoCheck, [])
    case TupleCase(name, types) =>
      DecodeArm(name, ClassName(def, c),
                if |types| == 0 then NoCheck else if |types| == 1 then AssertScVal else AssertList,
                DecodeValues(types))
  }

  function EncodeValues(types: seq<Ty>): (r: seq<Expr>)
    ensures |r| == |types|
  {
    seq(|types|, i requires 0 <= i < |types| => EncodeExpr(types[i], Index(Attr(Var(VALUE), VALUES), i)))
  }

  function EncodeArmOf(def: Union, c: Case): EncodeArm {
    var types := if c.VoidCase? then [] else c.types;
    EncodeArm(ClassName(def, c), c.name,
              if types == [] then NoneE
              else if |types| == 1 then EncodeExpr(types[0], Index(Attr(Var(VALUE), VALUES), 0))
              else ListDisplay(EncodeValues(types)))
  }

  function DecodeArms(def: Union): (r: seq<DecodeArm>)
    ensures |r| == |def.cases|
  {
    seq(|def.cases|, i requires 0 <= i < |def.cases| => DecodeArmOf(def, def.cases[i]))
  }

  function EncodeArms(def: Union): (r: seq<EncodeArm>)
    ensures |r| == |def.cases|
  {
    seq(|def.cases|, i requires 0 <= i < |def.cases| => EncodeArmOf(def, def.cases[i]))
  }

  /** `render_union`: one arm per case in each function, in order. */
  method RenderUnion(def: Union) returns (decode: seq<DecodeArm>, encode: seq<EncodeArm>)
    ensures decode == DecodeArms(def) && encode == EncodeArms(def)
  {
    decode := [];
    for k := 0 to |def.cases|
      invariant decode == DecodeArms(def)[..k]
    {
      var c := def.cases[k];
      match c {
        case VoidCase(name) =>
          decode := decode + [DecodeArm(name, ClassName(def, c), NoCheck, [])];
        case TupleCase(name, types) =>
          var check := NoCheck;
          var values := [];
          if |types| == 1 {
            check := AssertScVal;
            values := [DecodeExpr(types[0], Var(DATA))];
          } else if |types| > 1 {
            check := AssertList;
            for i := 0 to |types|
              invariant values == DecodeValues(types)[..i]
            {
              values := values + [DecodeExpr(types[i], Index(Var(DATA), i))];
            }
          }
          assert values == DecodeValues(types);
          decode := decode + [DecodeArm(name, ClassName(def, c), check, values)];
      }
    }
    encode := [];
    for k := 0 to |def.cases|
      invariant encode == EncodeArms(def)[..k]
    {
      var c := def.cases[k];
      var types := if c.VoidCase? then [] else c.types;
      var data := NoneE;
      if |types| == 1 {
        data := EncodeExpr(types[0], Index(Attr(Var(VALUE), VALUES), 0));
      } else if |types| > 1 {
        var items := [];
        for i := 0 to |types|
          invariant items == EncodeValues(types)[..i]
        {
          items := items + [EncodeExpr(types[i], Index(Attr(Var(VALUE), VALUES), i))];
        }
        assert items == EncodeValues(types);
        data := ListDisplay(items);
      }
      assert EncodeArm(ClassName(def, c), c.name, data) == EncodeArmOf(def, c);
      encode := encode + [EncodeArm(ClassName(def, c), c.name, data)];
    }
  }

  // ---------- running them ----------

  function EvalEach(spec: Spec, n: nat, es: seq<Expr>, env: Env): seq<Option<Val>> {
    seq(|es|, i requires 0 <= i < |es| => Eval(spec, n, es[i], env))
  }

  predicate Passes(check: Check, data: Val) {
    (check == AssertScVal ==> data.Sc?) && (check == AssertList ==> data.List?)
  }

  /** The body of an arm; a tuple display of one value has its comma here. */
  function RunDecodeArm(spec: Spec, n: nat, arm: DecodeArm, data: Val): Option<Val> {
    if !Passes(arm.check, data) then None
    else if arm.values == [] then Some(Obj(arm.cls, []))
    else
      var vs := Collect(EvalEach(spec, n, arm.values, map[DATA := data]));
      if vs.None? then None else Some(Obj(arm.cls, [Entry(VALUES, Tuple(vs.value))]))
  }

  /** The first arm with the tag; `ValueError` if there is none. */
  function RunDecodeArms(spec: Spec, n: nat, arms: seq<DecodeArm>, tag: string, data: Val): Option<Val> {
    if arms == [] then None
    else if arms[0].tag == tag then RunDecodeArm(spec, n, arms[0], data)
    else RunDecodeArms(spec, n, arms[1..], tag, data)
  }

  /** The first arm whose class is the value's; `TypeError` if there is none. */
  function RunEncodeArms(spec: Spec, n: nat, arms: seq<EncodeArm>, v: Val): Option<Val> {
    if arms == [] then None
    else if v.Obj? && v.cls == arms[0].cls then ToEnum(arms[0].tag, Eval(spec, n, arms[0].data, map[VALUE := v]))
    else RunEncodeArms(spec, n, arms[1..], v)
  }

  /** `_decode_U` */
  function DecodeUnion(spec: Spec, n: nat, def: Union, a: Option<Val>): Option<Val> {
    if !Loads(spec) || !Parses(def) || !IsWire(a) || !a.value.sc.SvEnum? then None
    else RunDecodeArms(spec, n, DecodeArms(def), a.value.sc.tag, EnumData(a.value.sc))
  }

  /** `_encode_U` */
  function EncodeUnion(spec: Spec, n: nat, def: Union, v: Val): Option<Val> {
    if !Loads(spec) || !Parses(def) then None else RunEncodeArms(spec, n, EncodeArms(def), v)
  }

  // ---------- first match ----------

  lemma {:induction false} DecodeArmChosen(spec: Spec, n: nat, arms: seq<DecodeArm>, k: nat, data: Val)
    requires k < |arms| && forall i :: 0 <= i < k ==> arms[i].tag != arms[k].tag
    ensures RunDecodeArms(spec, n, arms, arms[k].tag, data) == RunDecodeArm(spec, n, arms[k], data)
    decreases k
  {
    hide RunDecodeArm;
    if k > 0 {
      DecodeArmChosen(spec, n, arms[1..], k - 1, data);
    }
  }

  lemma {:induction false} EncodeArmChosen(spec: Spec, n: nat, arms: seq<EncodeArm>, k: nat, v: Val)
    requires k < |arms| && v.Obj? && v.cls == arms[k].cls && forall i :: 0 <= i < k ==> arms[i].cls != arms[k].cls
    ensures RunEncodeArms(spec, n, arms, v) == ToEnum(arms[k].tag, Eval(spec, n, arms[k].data, map[VALUE := v]))
    decreases k
  {
    hide ToEnum, Eval;
    if k > 0 {
      EncodeArmChosen(spec, n, arms[1..], k - 1, v);
    }
  }

  lemma {:induction false} ClassesDiffer(def: Union, i: nat, j: nat)
    requires DistinctCases(def) && i < j < |def.cases|
    ensures ClassName(def, def.cases[i]) != ClassName(def, def.cases[j])
  {
    var p := |def.name| + 1;
    var a, b := def.cases[i].name, def.cases[j].name;
    assert ClassName(def, def.cases[i])[p..] == a && ClassName(def, def.cases[j])[p..] == b;
  }

  // ---------- round trip ----------

  /** The object of case `k` with the given values. */
  function CaseObject(def: Union, k: nat, vals: seq<Val>): Val
    requires k < |def.cases|
  {
    var c := def.cases[k];
    Obj(ClassName(def, c), if c.VoidCase? then [] else [Entry(VALUES, Tuple(vals))])
  }

  predicate CaseTyped(spec: Spec, n: nat, c: Case, vals: seq<Val>) {
    match c
    case VoidCase(_) => vals == []
    case TupleCase(_, types) =>
      |vals| == |types| && forall i :: 0 <= i < |types| ==> WellTyped(spec, n, types[i], vals[i])
  }

  function Types(c: Case): seq<Ty> {
    if c.VoidCase? then [] else c.types
  }

  /** The values of a case on the wire. */
  function Payload(spec: Spec, n: nat, types: seq<Ty>, vals: seq<Val>): (r: seq<Option<Val>>)
    requires |vals| == |types|
    ensures |r| == |types|
  {
    seq(|types|, i requires 0 <= i < |types| => Encode(spec, n, types[i], Some(vals[i])))
  }

  function DecodePayload(spec: Spec, n: nat, types: seq<Ty>, ws: seq<Val>): (r: seq<Option<Val>>)
    requires |ws| == |types|
    ensures |r| == |types|
  {
    seq(|types|, i requires 0 <= i < |types| => Decode(spec, n, types[i], Some(ws[i])))
  }

  predicate AllEncodable(vals: seq<Val>) {
    forall i :: 0 <= i < |vals| ==> Encodable(vals[i])
  }

  lemma {:induction false} PayloadIsWire(spec: Spec, n: nat, types: seq<Ty>, vals: seq<Val>)
    requires Loads(spec) && |vals| == |types|
    requires forall i :: 0 <= i < |types| ==> WellTyped(spec, n, types[i], vals[i])
    ensures var ws := Collect(Payload(spec, n, types, vals));
            (ws.Some? <==> AllEncodable(vals)) && (ws.Some? ==> AllSc(ws.value))
  {
    hide Encode, Decode, WellTyped, Loads, Encodable, NoOneTuple;
    var ps := Payload(spec, n, types, vals);
    forall i | 0 <= i < |types|
      ensures (ps[i].Some? <==> Encodable(vals[i])) && (ps[i].Some? ==> ps[i].value.Sc?)
    {
      LoadedRoundTrip(spec, n, types[i], vals[i]);
    }
  }

  /** What the data argument of `to_enum` evaluates to. */
  lemma {:induction false} EncodeArmData(spec: Spec, n: nat, def: Union, k: nat, vals: seq<Val>)
    requires k < |def.cases| && CaseTyped(spec, n, def.cases[k], vals)
    ensures var types := Types(def.cases[k]);
            var ps := Payload(spec, n, types, vals);
            Eval(spec, n, EncodeArmOf(def, def.cases[k]).data, map[VALUE := CaseObject(def, k, vals)])
            == if types == [] then Some(PyNone) else if |types| == 1 then ps[0] else MakeList(Collect(ps))
  {
    hide Encode, WellTyped, EncodeExpr, PyIdent, InRange;
    var types := Types(def.cases[k]);
    var env: Env := map[VALUE := CaseObject(def, k, vals)];
    forall i | 0 <= i < |types|
      ensures Eval(spec, n, EncodeExpr(types[i], Index(Attr(Var(VALUE), VALUES), i)), env)
           == Encode(spec, n, types[i], Some(vals[i]))
    {
      AttrOfCase(spec, n, def, k, vals, i);
      EncodeIsScoped(spec, n, types[i], Index(Attr(Var(VALUE), VALUES), i), env);
    }
    if |types| > 1 {
      assert EvalItems(spec, n, ListDisplay(EncodeValues(types)), env) == Payload(spec, n, types, vals);
    }
  }

  lemma {:induction false} AttrOfCase(spec: Spec, n: nat, def: Union, k: nat, vals: seq<Val>, i: nat)
    requires k < |def.cases| && def.cases[k].TupleCase? && i < |vals|
    ensures Eval(spec, n, Index(Attr(Var(VALUE), VALUES), i), map[VALUE := CaseObject(def, k, vals)]) == Some(vals[i])
  {
    hide PyIdent, InRange;
    var env: Env := map[VALUE := CaseObject(def, k, vals)];
    assert Eval(spec, n, Var(VALUE), env) == Some(CaseObject(def, k, vals));
    assert Eval(spec, n, Attr(Var(VALUE), VALUES), env) == Some(Tuple(vals));
  }

  /** `_encode_U` of an object of case `k`: the case name and its encoded values, unless one of them raises. */
  lemma {:induction false} UnionEncodes(spec: Spec, n: nat, def: Union, k: nat, vals: seq<Val>)
    requires Loads(spec) && Parses(def) && DistinctCases(def)
    requires k < |def.cases| && CaseTyped(spec, n, def.cases[k], vals)
    ensures var ws := Collect(Payload(spec, n, Types(def.cases[k]), vals));
            && (ws.Some? <==> AllEncodable(vals)) && (ws.Some? ==> AllSc(ws.value))
            && EncodeUnion(spec, n, def, CaseObject(def, k, vals))
               == if ws.None? then None else Some(Sc(SvEnum(def.cases[k].name, Unwrap(ws.value))))
  {
    hide Encode, WellTyped, EncodeExpr, PyIdent, InRange, Eval, RunEncodeArms, Loads, Encodable, ValidClass;
    var c := def.cases[k];
    PayloadIsWire(spec, n, Types(c), vals);
    EncodeArmData(spec, n, def, k, vals);
    forall i | 0 <= i < k ensures EncodeArms(def)[i].cls != EncodeArms(def)[k].cls {
      ClassesDiffer(def, i, k);
    }
    EncodeArmChosen(spec, n, EncodeArms(def), k, CaseObject(def, k, vals));
    if AllEncodable(vals) {
      var ws := Collect(Payload(spec, n, Types(c), vals)).value;
      if |Types(c)| == 1 {
        assert Unwrap(ws) == [ws[0].sc];
      } else if Types(c) == [] {
        assert Unwrap(ws) == [];
      }
    }
  }

  /** What the values of a decode arm evaluate to. */
  lemma {:induction false} DecodeArmValues(spec: Spec, n: nat, types: seq<Ty>, ws: seq<Val>)
    requires |ws| == |types| && AllSc(ws) && types != []
    ensures EvalEach(spec, n, DecodeValues(types), map[DATA := EnumData(SvEnum("", Unwrap(ws)))])
         == DecodePayload(spec, n, types, ws)
  {
    hide Decode, DecodeExpr, PyIdent, InRange;
    var data := EnumData(SvEnum("", Unwrap(ws)));
    var env: Env := map[DATA := data];
    assert Eval(spec, n, Var(DATA), env) == Some(data);
    if |types| == 1 {
      DecodeIsScoped(spec, n, types[0], Var(DATA), env);
    } else {
      assert Wrap(Unwrap(ws)) == ws;
      forall i | 0 <= i < |types|
        ensures Eval(spec, n, DecodeExpr(types[i], Index(Var(DATA), i)), env) == Decode(spec, n, types[i], Some(ws[i]))
      {
        assert Eval(spec, n, Index(Var(DATA), i), env) == Some(ws[i]);
        DecodeIsScoped(spec, n, types[i], Index(Var(DATA), i), env);
      }
    }
  }

  /** `_decode_U` of a wire value of case `k`, whichever shape `from_enum` gives its data. */
  lemma {:induction false} UnionDecodes(spec: Spec, n: nat, def: Union, k: nat, ws: seq<Val>)
    requires Loads(spec) && Parses(def) && DistinctCases(def)
    requires k < |def.cases| && |ws| == |Types(def.cases[k])| && AllSc(ws)
    ensures var c := def.cases[k];
            var ds := Collect(DecodePayload(spec, n, Types(c), ws));
            DecodeUnion(spec, n, def, Some(Sc(SvEnum(c.name, Unwrap(ws)))))
            == if ds.None? then None else Some(CaseObject(def, k, ds.value))
  {
    hide Decode, DecodeExpr, PyIdent, InRange, Eval, RunDecodeArms, EvalEach, ValidClass;
    var c := def.cases[k];
    var s := SvEnum(c.name, Unwrap(ws));
    var arms := DecodeArms(def);
    assert arms[k] == DecodeArmOf(def, c);
    forall i | 0 <= i < k ensures arms[i].tag != arms[k].tag {
      assert arms[i] == DecodeArmOf(def, def.cases[i]);
    }
    DecodeArmChosen(spec, n, arms, k, EnumData(s));
    if Types(c) != [] {
      DecodeArmValues(spec, n, Types(c), ws);
      assert EnumData(s) == EnumData(SvEnum("", Unwrap(ws)));
    }
  }

  // ---------- main results ----------

  /** Decoding gives back what was encoded if and only if the module loads, and the values in the case can be encoded
      and hold no one-element tuple. The case's own tuple may have one element: its display has the comma. */
  lemma {:induction false} UnionRoundTrip(spec: Spec, n: nat, def: Union, k: nat, vals: seq<Val>)
    requires DistinctCases(def)
    requires k < |def.cases| && CaseTyped(spec, n, def.cases[k], vals)
    ensures DecodeUnion(spec, n, def, EncodeUnion(spec, n, def, CaseObject(def, k, vals)))
            == Some(CaseObject(def, k, vals))
            <==> Loads(spec) && Parses(def) && forall i :: 0 <= i < |vals| ==> Encodable(vals[i]) && NoOneTuple(vals[i])
  {
    hide Decode, Encode, WellTyped, PyIdent, InRange, EncodeUnion, NoOneTuple, Encodable, Loads, Parses, DistinctCases;
    if Loads(spec) && Parses(def) {
      var types := Types(def.cases[k]);
      UnionEncodes(spec, n, def, k, vals);
      if AllEncodable(vals) {
        var ps := Payload(spec, n, types, vals);
        var ws := Collect(ps).value;
        UnionDecodes(spec, n, def, k, ws);
        var ds := DecodePayload(spec, n, types, ws);
        forall i | 0 <= i < |types| ensures ds[i] == Some(vals[i]) <==> NoOneTuple(vals[i]) {
          assert ps[i] == Some(ws[i]);
          LoadedRoundTrip(spec, n, types[i], vals[i]);
        }
        RecodedValues(ds, vals);
        hide CaseObject;
        SameObject(def, k, vals, Collect(ds));
      }
    }
  }

  lemma {:induction false} RecodedValues(ds: seq<Option<Val>>, vals: seq<Val>)
    requires |ds| == |vals|
    ensures Collect(ds) == Some(vals) <==> forall i :: 0 <= i < |vals| ==> ds[i] == Some(vals[i])
  {
    if forall i :: 0 <= i < |vals| ==> ds[i] == Some(vals[i]) {
      assert Collect(ds).value == vals;
    }
  }

  lemma {:induction false} SameObject(def: Union, k: nat, vals: seq<Val>, ds: Option<seq<Val>>)
    requires k < |def.cases| && (def.cases[k].VoidCase? ==> vals == [] && ds == Some([]))
    ensures ds.Some? && CaseObject(def, k, ds.value) == CaseObject(def, k, vals) <==> ds == Some(vals)
  {
    if ds.Some? && def.cases[k].TupleCase? {
      assert CaseObject(def, k, ds.value).fields[0].val == Tuple(ds.value);
      assert CaseObject(def, k, vals).fields[0].val == Tuple(vals);
    }
  }

  /** A tag that names no case raises. */
  lemma {:induction false} UnknownTagRaises(spec: Spec, n: nat, def: Union, tag: string, payload: seq<ScVal>)
    requires forall i :: 0 <= i < |def.cases| ==> def.cases[i].name != tag
    ensures DecodeUnion(spec, n, def, Some(Sc(SvEnum(tag, payload)))).None?
  {
    hide RunDecodeArm;
    NoArm(spec, n, DecodeArms(def), tag, EnumData(SvEnum(tag, payload)));
  }

  lemma {:induction false} NoArm(spec: Spec, n: nat, arms: seq<DecodeArm>, tag: string, data: Val)
    requires forall i :: 0 <= i < |arms| ==> arms[i].tag != tag
    ensures RunDecodeArms(spec, n, arms, tag, data).None?
    decreases |arms|
  {
    hide RunDecodeArm;
    if arms != [] {
      NoArm(spec, n, arms[1..], tag, data);
    }
  }

  /** In a module that does not load, both functions raise. */
  lemma {:induction false} NothingRunsUnloaded(spec: Spec, n: nat, def: Union, a: Option<Val>, v: Val)
    requires !Loads(spec) || !Parses(def)
    ensures DecodeUnion(spec, n, def, a).None? && EncodeUnion(spec, n, def, v).None?
  {
    hide Loads, Parses;
  }

  /** A bare value where the case expects a list, or a list or nothing where it expects a bare value, raises: the
      asserts of the arms. */
  lemma {:induction false} WrongShapeRaises(spec: Spec, n: nat, def: Union, k: nat, payload: seq<ScVal>)
    requires DistinctCases(def) && k < |def.cases| && def.cases[k].TupleCase? && def.cases[k].types != []
    requires |def.cases[k].types| == 1 <==> |payload| != 1
    ensures DecodeUnion(spec, n, def, Some(Sc(SvEnum(def.cases[k].name, payload)))).None?
  {
    hide Decode, DecodeExpr, Eval, RunDecodeArms, EvalEach, Loads, Parses;
    var arms := DecodeArms(def);
    assert arms[k] == DecodeArmOf(def, def.cases[k]);
    forall i | 0 <= i < k ensures arms[i].tag != arms[k].tag {
      assert arms[i] == DecodeArmOf(def, def.cases[i]);
    }
    var s := SvEnum(def.cases[k].name, payload);
    DecodeArmChosen(spec, n, arms, k, EnumData(s));
  }

  /** The object of a case: the class of the union's and the case's name, and the values in one attribute. */
  lemma {:induction false} CaseObjectExactly(def: Union, k: nat, vals: seq<Val>)
    requires k < |def.cases|
    ensures CaseObject(def, k, vals).cls == def.name + ("_" + def.cases[k].name)
    ensures CaseObject(def, k, vals).fields
         == if def.cases[k].VoidCase? then [] else [Entry("values", Tuple(vals))]
  {
    var (a, b) := (def.name, def.cases[k].name);
    assert a + ['_'] + b == a + (['_'] + b);
  }

  /** The union's code parses exactly when its name and the names of all its classes can be names, there is a case, and
      no case has an empty list of types. */
  lemma {:induction false} ParsesExactly(def: Union)
    ensures Parses(def) <==>
              && IsIdentifier(def.name) && !IsKeyword(def.name) && |def.cases| > 0
              && (forall i :: 0 <= i < |def.cases| ==> IsIdentifier(ClassName(def, def.cases[i])))
              && (forall i :: 0 <= i < |def.cases| && def.cases[i].TupleCase? ==> |def.cases[i].types| > 0)
  {
    hide IsKeyword, IsIdentifier, AllIdentifierParts;
    if ValidClass(def.name) {
      forall i | 0 <= i < |def.cases|
        ensures IsIdentifier(ClassName(def, def.cases[i])) <==> AllIdentifierParts(def.cases[i].name)
      {
        ClassNamesAreNames(def, def.cases[i]);
      }
    }
  }
}
