/** What the generated codecs promise: decoding undoes encoding, and decoded values have the type that the generated
    annotations name, unless one-element tuples are involved or the module does not load. */
module PyRoundTrip {
  import opened PyRuntime
  import opened PyCodec
  import opened Wrappers

  // ---------- the annotations ----------

  datatype PyTy =
    | NoneT | KindT(py: PyKind) | ListT(elem: PyTy) | OptionalT(value: PyTy) | DictT(key: PyTy, value: PyTy)
    | TupleT(parts: seq<PyTy>) | ClassT(name: string) | AnyT

  function KindOf(s: Scalar): PyKind {
    match s
    case Bool => PyBool
    case Bytes => PyBytes
    case String => PyBytes
    case Symbol => PyStr
    case Address => PyAddress
    case MuxedAddress => PyAddress
    case _ => PyInt
  }

  /** `py_type` */
  function PyType(spec: Spec, ty: Ty): PyTy
    decreases ty
  {
    match ty
    case Void => NoneT
    case Plain(s) => KindT(KindOf(s))
    case BytesN => KindT(PyBytes)
    case Vec(elem) => ListT(PyType(spec, elem))
    case Opt(value) => OptionalT(PyType(spec, value))
    case Map(key, value) => DictT(PyType(spec, key), PyType(spec, value))
    case Res(ok) => PyType(spec, ok)
    case Tup(parts) =>
      if parts == [] then NoneT
      else TupleT(seq(|parts|, i requires 0 <= i < |parts| => PyType(spec, parts[i])))
    case Udt(name) => if name in spec then ClassT(name) else AnyT
    case Unknown => AnyT
  }

  /** The value has the annotated type, nested objects included, down to depth `n`. */
  predicate Inhabits(spec: Spec, n: nat, t: PyTy, v: Val)
    decreases n, t
  {
    match t
    case NoneT => v == PyNone
    case KindT(py) => v.Prim? && v.py == py
    case ListT(elem) => v.List? && forall i :: 0 <= i < |v.items| ==> Inhabits(spec, n, elem, v.items[i])
    case OptionalT(value) => v == PyNone || Inhabits(spec, n, value, v)
    case DictT(key, value) =>
      && v.Dict? && DistinctKeys(v.pairs)
      && (forall i :: 0 <= i < |v.pairs| ==> Inhabits(spec, n, key, v.pairs[i].key))
      && (forall i :: 0 <= i < |v.pairs| ==> Inhabits(spec, n, value, v.pairs[i].val))
    case TupleT(parts) =>
      v.Tuple? && |v.items| == |parts| && forall i :: 0 <= i < |parts| ==> Inhabits(spec, n, parts[i], v.items[i])
    case ClassT(name) =>
      && n > 0 && name in spec && v.Obj? && v.cls == name && |v.fields| == |spec[name]|
      && forall i :: 0 <= i < |v.fields| ==>
           v.fields[i].key == PyIdent(spec[name][i].name) &&
           Inhabits(spec, n - 1, PyType(spec, spec[name][i].ty), v.fields[i].val)
    case AnyT => true
  }

  /** What the annotations of scalars admit. */
  lemma {:induction false} ScalarAnnotations(spec: Spec, n: nat, s: Scalar, v: Val)
    ensures Inhabits(spec, n, PyType(spec, Plain(s)), v) <==>
              v.Prim? && v.py == match s
                                 case Bool => PyBool
                                 case Bytes => PyBytes
                                 case String => PyBytes
                                 case Symbol => PyStr
                                 case Address => PyAddress
                                 case MuxedAddress => PyAddress
                                 case _ => PyInt
    ensures Inhabits(spec, n, PyType(spec, BytesN), v) <==> v.Prim? && v.py == PyBytes
    ensures Inhabits(spec, n, PyType(spec, Void), v) <==> v == PyNone
  {
  }

  lemma {:induction false} CompoundTypes(spec: Spec, t: Ty, u: Ty)
    ensures var (a, b) := (PyType(spec, t), PyType(spec, u));
            && PyType(spec, Vec(t)) == ListT(a) && PyType(spec, Opt(t)) == OptionalT(a) && PyType(spec, Res(t)) == a
            && PyType(spec, Map(t, u)) == DictT(a, b) && PyType(spec, Tup([t, u])) == TupleT([a, b])
  {
    assert PyType(spec, Tup([t, u])).parts == [PyType(spec, t), PyType(spec, u)];
  }

  lemma {:induction false} ListOrOption(spec: Spec, n: nat, a: PyTy, v: Val)
    ensures Inhabits(spec, n, ListT(a), v) <==>
              v.List? && forall i :: 0 <= i < |v.items| ==> Inhabits(spec, n, a, v.items[i])
    ensures Inhabits(spec, n, OptionalT(a), v) <==> v == PyNone || Inhabits(spec, n, a, v)
  {
  }

  lemma {:induction false} DictOrPair(spec: Spec, n: nat, a: PyTy, b: PyTy, v: Val)
    ensures Inhabits(spec, n, DictT(a, b), v) <==>
              && v.Dict? && DistinctKeys(v.pairs)
              && (forall i :: 0 <= i < |v.pairs| ==> Inhabits(spec, n, a, v.pairs[i].key))
              && (forall i :: 0 <= i < |v.pairs| ==> Inhabits(spec, n, b, v.pairs[i].val))
    ensures Inhabits(spec, n, TupleT([a, b]), v) <==>
              v.Tuple? && |v.items| == 2 && Inhabits(spec, n, a, v.items[0]) && Inhabits(spec, n, b, v.items[1])
  {
    var t := TupleT([a, b]);
    assert t.parts[0] == a && t.parts[1] == b;
  }

  /** And those of compound types, which name the annotations of their parts. */
  lemma {:induction false} CompoundAnnotations(spec: Spec, n: nat, t: Ty, u: Ty, v: Val)
    ensures Inhabits(spec, n, PyType(spec, Vec(t)), v) <==>
              v.List? && forall i :: 0 <= i < |v.items| ==> Inhabits(spec, n, PyType(spec, t), v.items[i])
    ensures Inhabits(spec, n, PyType(spec, Opt(t)), v) <==> v == PyNone || Inhabits(spec, n, PyType(spec, t), v)
    ensures Inhabits(spec, n, PyType(spec, Res(t)), v) <==> Inhabits(spec, n, PyType(spec, t), v)
    ensures Inhabits(spec, n, PyType(spec, Map(t, u)), v) <==>
              && v.Dict? && DistinctKeys(v.pairs)
              && (forall i :: 0 <= i < |v.pairs| ==> Inhabits(spec, n, PyType(spec, t), v.pairs[i].key))
              && (forall i :: 0 <= i < |v.pairs| ==> Inhabits(spec, n, PyType(spec, u), v.pairs[i].val))
    ensures Inhabits(spec, n, PyType(spec, Tup([t, u])), v) <==>
              && v.Tuple? && |v.items| == 2
              && Inhabits(spec, n, PyType(spec, t), v.items[0]) && Inhabits(spec, n, PyType(spec, u), v.items[1])
  {
    hide *;
    CompoundTypes(spec, t, u);
    ListOrOption(spec, n, PyType(spec, t), v);
    DictOrPair(spec, n, PyType(spec, t), PyType(spec, u), v);
  }

  predicate OneTupleFree(ty: Ty) {
    match ty
    case Vec(elem) => OneTupleFree(elem)
    case Opt(value) => OneTupleFree(value)
    case Map(key, value) => OneTupleFree(key) && OneTupleFree(value)
    case Res(ok) => OneTupleFree(ok)
    case Tup(parts) => |parts| != 1 && forall i :: 0 <= i < |parts| ==> OneTupleFree(parts[i])
    case _ => true
  }

  predicate SpecOneTupleFree(spec: Spec) {
    forall name, i | name in spec && 0 <= i < |spec[name]| :: OneTupleFree(spec[name][i].ty)
  }

  /** The three tables of scalar names agree. */
  lemma {:induction false} ScalarTablesAgree(s: Scalar)
    ensures DecoderOf(s) == EncoderOf(s)
    ensures NativeOf(DecoderOf(s)) == KindOf(s)
  {
    match s
    case _ =>
  }

  /** No place of the value has a one-element tuple as its spec type. */
  predicate AvoidsOneTuple(spec: Spec, n: nat, ty: Ty, v: Val)
    decreases n, ty
  {
    match ty
    case Vec(elem) => v.List? ==> forall i :: 0 <= i < |v.items| ==> AvoidsOneTuple(spec, n, elem, v.items[i])
    case Opt(value) => v != PyNone ==> AvoidsOneTuple(spec, n, value, v)
    case Map(key, value) =>
      v.Dict? ==>
        && (forall i :: 0 <= i < |v.pairs| ==> AvoidsOneTuple(spec, n, key, v.pairs[i].key))
        && (forall i :: 0 <= i < |v.pairs| ==> AvoidsOneTuple(spec, n, value, v.pairs[i].val))
    case Res(ok) => AvoidsOneTuple(spec, n, ok, v)
    case Tup(parts) =>
      && |parts| != 1
      && (v.Tuple? && |v.items| == |parts| ==>
            forall i :: 0 <= i < |parts| ==> AvoidsOneTuple(spec, n, parts[i], v.items[i]))
    case Udt(name) =>
      n > 0 && name in spec && v.Obj? && |v.fields| == |spec[name]| ==>
        forall i :: 0 <= i < |v.fields| ==> AvoidsOneTuple(spec, n - 1, spec[name][i].ty, v.fields[i].val)
    case _ => true
  }

  /** For one decoded value: its annotation holds if and only if it avoids one-element tuple types. */
  ghost predicate AnnotationExact(spec: Spec, n: nat, ty: Ty, v: Val) {
    Inhabits(spec, n, PyType(spec, ty), v) <==> AvoidsOneTuple(spec, n, ty, v)
  }

  predicate WireOrRaised(a: Option<Val>) {
    a.Some? ==> a.value.Sc?
  }

  lemma {:induction false} LeafExact(spec: Spec, n: nat, ty: Ty, a: Option<Val>)
    requires ty.Void? || ty.Plain? || ty.BytesN? || ty.Unknown?
    requires Decode(spec, n, ty, a).Some?
    ensures AnnotationExact(spec, n, ty, Decode(spec, n, ty, a).value)
  {
    hide InRange;
    if ty.Plain? {
      ScalarTablesAgree(ty.s);
    }
  }

  lemma {:induction false} WrapperExact(spec: Spec, n: nat, ty: Ty, v: Val)
    requires AnnotationExact(spec, n, ty, v)
    ensures AnnotationExact(spec, n, Res(ty), v) && AnnotationExact(spec, n, Opt(ty), v)
  {
    assert PyType(spec, Res(ty)) == PyType(spec, ty) && PyType(spec, Opt(ty)) == OptionalT(PyType(spec, ty));
  }

  lemma {:induction false} NoneExact(spec: Spec, n: nat, ty: Ty)
    ensures AnnotationExact(spec, n, Opt(ty), PyNone) && AnnotationExact(spec, n, Tup([]), PyNone)
  {
  }

  lemma {:induction false} DecodedVecShape(spec: Spec, n: nat, elem: Ty, a: Option<Val>)
    requires Decode(spec, n, Vec(elem), a).Some?
    ensures var xs := Iterate(RunBuiltin(FromVec, a));
            && xs.Some? && AllSc(xs.value) && Collect(DecodeEach(spec, n, elem, xs.value)).Some?
            && Decode(spec, n, Vec(elem), a).value == List(Collect(DecodeEach(spec, n, elem, xs.value)).value)
  {
    hide InRange, DecodeEach, Collect;
  }

  lemma {:induction false} DecodedTupShape(spec: Spec, n: nat, ty: Ty, a: Option<Val>)
    requires ty.Tup? && |ty.parts| > 1 && Decode(spec, n, ty, a).Some?
    ensures var l := RunBuiltin(FromVec, a);
            && l.Some? && l.value.List? && AllSc(l.value.items) && Collect(DecodeTuple(spec, n, ty, l)).Some?
            && Decode(spec, n, ty, a).value == Tuple(Collect(DecodeTuple(spec, n, ty, l)).value)
            && |Collect(DecodeTuple(spec, n, ty, l)).value| == |ty.parts|
  {
    hide InRange;
  }

  lemma {:induction false} DecodedUdtShape(spec: Spec, n: nat, name: string, a: Option<Val>)
    requires Decode(spec, n, Udt(name), a).Some?
    ensures n > 0 && name in spec && FromStruct(a).Some?
    ensures Collect(DecodeFields(spec, n - 1, spec[name], FromStruct(a))).Some?
    ensures |Collect(DecodeFields(spec, n - 1, spec[name], FromStruct(a))).value| == |spec[name]|
    ensures Decode(spec, n, Udt(name), a)
         == MakeObject(name, spec[name], Collect(DecodeFields(spec, n - 1, spec[name], FromStruct(a))))
  {
    hide PyIdent, FromStruct;
  }

  lemma {:induction false} TupleExact(spec: Spec, n: nat, ty: Ty, vs: seq<Val>)
    requires ty.Tup? && |ty.parts| > 1 && |vs| == |ty.parts|
    requires forall i :: 0 <= i < |vs| ==> AnnotationExact(spec, n, ty.parts[i], vs[i])
    ensures AnnotationExact(spec, n, ty, Tuple(vs))
  {
    assert PyType(spec, ty).TupleT?;
    assert forall i :: 0 <= i < |vs| ==> PyType(spec, ty).parts[i] == PyType(spec, ty.parts[i]);
  }

  lemma {:induction false} ObjectExact(spec: Spec, n: nat, name: string, vs: seq<Val>)
    requires n > 0 && name in spec && |vs| == |spec[name]|
    requires forall i :: 0 <= i < |vs| ==> AnnotationExact(spec, n - 1, spec[name][i].ty, vs[i])
    ensures AnnotationExact(spec, n, Udt(name), MakeObject(name, spec[name], Some(vs)).value)
  {
    hide PyIdent;
    assert PyType(spec, Udt(name)) == ClassT(name);
  }

  /** What decodes has the type that its annotation names if and only if no place of it has a one-element tuple as its
      spec type, at any depth. */
  lemma {:induction false} DecodedInhabitsAnnotation(spec: Spec, n: nat, ty: Ty, a: Option<Val>)
    requires WireOrRaised(a) && Decode(spec, n, ty, a).Some?
    ensures var v := Decode(spec, n, ty, a).value;
            Inhabits(spec, n, PyType(spec, ty), v) <==> AvoidsOneTuple(spec, n, ty, v)
    decreases n, ty, 1
  {
    hide Inhabits, AvoidsOneTuple, PyType, Decode;
    assert AnnotationExact(spec, n, ty, Decode(spec, n, ty, a).value) by {
      hide *;
      match ty
      case Void => LeafExact(spec, n, ty, a);
      case Plain(_) => LeafExact(spec, n, ty, a);
      case BytesN => LeafExact(spec, n, ty, a);
      case Unknown => LeafExact(spec, n, ty, a);
      case Res(ok) =>
        DecodeUnfold(spec, n, ok, a);
        DecodedExact(spec, n, ok, a);
        WrapperExact(spec, n, ok, Decode(spec, n, ok, a).value);
      case Opt(value) =>
        DecodeUnfold(spec, n, value, a);
        if a == Some(Sc(SvVoid)) {
          NoneExact(spec, n, value);
        } else {
          DecodedExact(spec, n, value, a);
          WrapperExact(spec, n, value, Decode(spec, n, value, a).value);
        }
      case Vec(elem) =>
        DecodedVecShape(spec, n, elem, a);
        DecodedListInhabits(spec, n, elem, Iterate(RunBuiltin(FromVec, a)).value);
        ListExact(spec, n, elem, Collect(DecodeEach(spec, n, elem, Iterate(RunBuiltin(FromVec, a)).value)).value);
      case Map(key, value) => DecodedDictInhabits(spec, n, key, value, a);
      case Tup(parts) => DecodedTupExact(spec, n, ty, a);
      case Udt(name) =>
        DecodedUdtShape(spec, n, name, a);
        StructIsWire(a);
        DecodedFieldsInhabit(spec, n - 1, spec[name], FromStruct(a));
        ObjectExact(spec, n, name, Collect(DecodeFields(spec, n - 1, spec[name], FromStruct(a))).value);
    }
  }

  lemma {:induction false} DecodedExact(spec: Spec, n: nat, ty: Ty, a: Option<Val>)
    requires WireOrRaised(a) && Decode(spec, n, ty, a).Some?
    ensures AnnotationExact(spec, n, ty, Decode(spec, n, ty, a).value)
    decreases n, ty, 2
  {
    hide Inhabits, AvoidsOneTuple, PyType, Decode;
    DecodedInhabitsAnnotation(spec, n, ty, a);
  }

  lemma {:induction false} DecodedTupExact(spec: Spec, n: nat, ty: Ty, a: Option<Val>)
    requires ty.Tup? && WireOrRaised(a) && Decode(spec, n, ty, a).Some?
    ensures AnnotationExact(spec, n, ty, Decode(spec, n, ty, a).value)
    decreases n, ty, 1, 0
  {
    hide Inhabits, PyType, RunBuiltin, Collect, DecodeTuple;
    if ty.parts == [] {
      NoneExact(spec, n, Void);
    } else if |ty.parts| == 1 {
      assert ty.parts == [ty.parts[0]];
      OneTupleNeverInhabits(spec, n, ty.parts[0], a);
    } else {
      hide *;
      DecodedTupShape(spec, n, ty, a);
      DecodedTupleInhabits(spec, n, ty, RunBuiltin(FromVec, a));
      TupleExact(spec, n, ty, Collect(DecodeTuple(spec, n, ty, RunBuiltin(FromVec, a))).value);
    }
  }

  lemma {:induction false} ListExact(spec: Spec, n: nat, elem: Ty, vs: seq<Val>)
    requires forall v :: v in vs ==> AnnotationExact(spec, n, elem, v)
    ensures AnnotationExact(spec, n, Vec(elem), List(vs))
  {
    assert forall i :: 0 <= i < |vs| ==> AnnotationExact(spec, n, elem, vs[i]);
  }

  lemma {:induction false} DecodedListInhabits(spec: Spec, n: nat, ty: Ty, xs: seq<Val>)
    requires AllSc(xs) && Collect(DecodeEach(spec, n, ty, xs)).Some?
    ensures forall v :: v in Collect(DecodeEach(spec, n, ty, xs)).value ==> AnnotationExact(spec, n, ty, v)
    decreases n, ty, 3
  {
    hide Decode, Inhabits, PyType, AvoidsOneTuple;
    var ds := DecodeEach(spec, n, ty, xs);
    forall i | 0 <= i < |xs| ensures AnnotationExact(spec, n, ty, Collect(ds).value[i]) {
      assert ds[i] == Decode(spec, n, ty, Some(xs[i]));
      DecodedExact(spec, n, ty, Some(xs[i]));
    }
  }

  lemma {:induction false} DecodedDictInhabits(spec: Spec, n: nat, key: Ty, value: Ty, a: Option<Val>)
    requires WireOrRaised(a) && Decode(spec, n, Map(key, value), a).Some?
    ensures AnnotationExact(spec, n, Map(key, value), Decode(spec, n, Map(key, value), a).value)
    decreases n, Map(key, value), 0
  {
    hide InRange, PyIdent, Build, RunBuiltin, Hashable;
    var es := Items(RunBuiltin(FromMap, a)).value;
    DictIsWire(a);
    var ks := Collect(DecodeEach(spec, n, key, Keys(es)));
    var vs := Collect(DecodeEach(spec, n, value, Values(es)));
    DecodedListInhabits(spec, n, key, Keys(es));
    DecodedListInhabits(spec, n, value, Values(es));
    var z := Zip(ks.value, vs.value);
    BuildKeys(z);
    var d := Build(z);
    assert Decode(spec, n, Map(key, value), a) == Some(Dict(d));
    hide Decode, Zip;
    forall i | 0 <= i < |d|
      ensures AnnotationExact(spec, n, key, d[i].key) && AnnotationExact(spec, n, value, d[i].val)
    {
      assert d[i] in z;
    }
  }

  lemma {:induction false} DictIsWire(a: Option<Val>)
    requires Items(RunBuiltin(FromMap, a)).Some?
    ensures AllSc(Keys(Items(RunBuiltin(FromMap, a)).value)) && AllSc(Values(Items(RunBuiltin(FromMap, a)).value))
  {
    hide InRange, Build;
  }

  lemma {:induction false} DecodedTupleInhabits(spec: Spec, n: nat, ty: Ty, l: Option<Val>)
    requires ty.Tup? && l.Some? && l.value.List? && AllSc(l.value.items)
    requires Collect(DecodeTuple(spec, n, ty, l)).Some?
    ensures forall i :: 0 <= i < |ty.parts| ==>
              AnnotationExact(spec, n, ty.parts[i], Collect(DecodeTuple(spec, n, ty, l)).value[i])
    decreases n, ty, 0
  {
    hide Decode, Inhabits, PyType, AvoidsOneTuple;
    var ds := DecodeTuple(spec, n, ty, l);
    forall i | 0 <= i < |ty.parts| ensures AnnotationExact(spec, n, ty.parts[i], Collect(ds).value[i]) {
      assert ds[i] == Decode(spec, n, ty.parts[i], At(l, i));
      DecodedExact(spec, n, ty.parts[i], At(l, i));
    }
  }

  lemma {:induction false} DecodedFieldsInhabit(spec: Spec, n: nat, fields: seq<Field>, f: Option<Val>)
    requires forall name :: WireOrRaised(Member(f, name))
    requires Collect(DecodeFields(spec, n, fields, f)).Some?
    ensures forall i :: 0 <= i < |fields| ==>
              AnnotationExact(spec, n, fields[i].ty, Collect(DecodeFields(spec, n, fields, f)).value[i])
    decreases n
  {
    hide Decode, Inhabits, PyType, AvoidsOneTuple;
    var ds := DecodeFields(spec, n, fields, f);
    forall i | 0 <= i < |fields| ensures AnnotationExact(spec, n, fields[i].ty, Collect(ds).value[i]) {
      assert ds[i] == Decode(spec, n, fields[i].ty, Member(f, fields[i].name));
      DecodedExact(spec, n, fields[i].ty, Member(f, fields[i].name));
    }
  }

  /** Types in which no one-element tuple occurs, structs included, are always avoided. */
  lemma {:induction false} OneTupleFreeAvoids(spec: Spec, n: nat, ty: Ty, v: Val)
    requires SpecOneTupleFree(spec) && OneTupleFree(ty)
    ensures AvoidsOneTuple(spec, n, ty, v)
    decreases n, ty
  {
    match ty
    case Vec(elem) =>
      if v.List? {
        forall i | 0 <= i < |v.items| ensures AvoidsOneTuple(spec, n, elem, v.items[i]) {
          OneTupleFreeAvoids(spec, n, elem, v.items[i]);
        }
      }
    case Opt(value) => OneTupleFreeAvoids(spec, n, value, v);
    case Map(key, value) =>
      if v.Dict? {
        forall i | 0 <= i < |v.pairs|
          ensures AvoidsOneTuple(spec, n, key, v.pairs[i].key) && AvoidsOneTuple(spec, n, value, v.pairs[i].val)
        {
          OneTupleFreeAvoids(spec, n, key, v.pairs[i].key);
          OneTupleFreeAvoids(spec, n, value, v.pairs[i].val);
        }
      }
    case Res(ok) => OneTupleFreeAvoids(spec, n, ok, v);
    case Tup(parts) =>
      if v.Tuple? && |v.items| == |parts| {
        forall i | 0 <= i < |parts| ensures AvoidsOneTuple(spec, n, parts[i], v.items[i]) {
          OneTupleFreeAvoids(spec, n, parts[i], v.items[i]);
        }
      }
    case Udt(name) =>
      if n > 0 && name in spec && v.Obj? && |v.fields| == |spec[name]| {
        forall i | 0 <= i < |v.fields| ensures AvoidsOneTuple(spec, n - 1, spec[name][i].ty, v.fields[i].val) {
          OneTupleFreeAvoids(spec, n - 1, spec[name][i].ty, v.fields[i].val);
        }
      }
    case _ =>
  }

  /** A one-element tuple type decodes to what its element decodes to. */
  lemma {:induction false} OneTupleDecodesBare(spec: Spec, n: nat, t: Ty, s: ScVal)
    ensures Decode(spec, n, Tup([t]), Some(Sc(SvVec([s])))) == Decode(spec, n, t, Some(Sc(s)))
  {
    hide InRange, IsKeyword;
    var l := RunBuiltin(FromVec, Some(Sc(SvVec([s]))));
    assert Wrap([s]) == [Sc(s)];
    var d := Decode(spec, n, t, Some(Sc(s)));
    assert DecodeTuple(spec, n, Tup([t]), l) == [d];
    assert Collect([d]).Some? ==> [d][0].Some?;
  }

  // ---------- round trip ----------

  /** A value that can be passed where the type is expected: of the annotated type, in the wire type's range, with
      keys that Python can hash. */
  predicate WellTyped(spec: Spec, n: nat, ty: Ty, v: Val)
    decreases n, ty
  {
    match ty
    case Void => v == PyNone
    case Plain(s) => v.Prim? && v.py == KindOf(s) && InRange(EncoderOf(s), v.data)
    case BytesN => v.Prim? && v.py == PyBytes
    case Vec(elem) => v.List? && forall i :: 0 <= i < |v.items| ==> WellTyped(spec, n, elem, v.items[i])
    case Opt(value) => v == PyNone || WellTyped(spec, n, value, v)
    case Map(key, value) =>
      && v.Dict? && DistinctKeys(v.pairs)
      && (forall i :: 0 <= i < |v.pairs| ==> Hashable(v.pairs[i].key) && WellTyped(spec, n, key, v.pairs[i].key))
      && (forall i :: 0 <= i < |v.pairs| ==> WellTyped(spec, n, value, v.pairs[i].val))
    case Res(ok) => WellTyped(spec, n, ok, v)
    case Tup(parts) =>
      if parts == [] then v == PyNone
      else
        && v.Tuple? && |v.items| == |parts|
        && forall i :: 0 <= i < |parts| ==> WellTyped(spec, n, parts[i], v.items[i])
    case Udt(name) =>
      && n > 0 && name in spec && v.Obj? && v.cls == name && |v.fields| == |spec[name]|
      && forall i :: 0 <= i < |v.fields| ==>
           v.fields[i].key == PyIdent(spec[name][i].name) && WellTyped(spec, n - 1, spec[name][i].ty, v.fields[i].val)
    case Unknown => false
  }

  /** No tuple with exactly one element anywhere in the value. */
  predicate NoOneTuple(v: Val) {
    match v
    case List(items) => forall i :: 0 <= i < |items| ==> NoOneTuple(items[i])
    case Tuple(items) => |items| != 1 && forall i :: 0 <= i < |items| ==> NoOneTuple(items[i])
    case Dict(pairs) =>
      && (forall i :: 0 <= i < |pairs| ==> NoOneTuple(pairs[i].key))
      && (forall i :: 0 <= i < |pairs| ==> NoOneTuple(pairs[i].val))
    case Obj(_, fields) => forall i :: 0 <= i < |fields| ==> NoOneTuple(fields[i].val)
    case _ => true
  }

  /** No object in the value has a field that hides its `_encode` method. */
  predicate Encodable(v: Val) {
    match v
    case List(items) => forall i :: 0 <= i < |items| ==> Encodable(items[i])
    case Tuple(items) => forall i :: 0 <= i < |items| ==> Encodable(items[i])
    case Dict(pairs) =>
      && (forall i :: 0 <= i < |pairs| ==> Encodable(pairs[i].key))
      && (forall i :: 0 <= i < |pairs| ==> Encodable(pairs[i].val))
    case Obj(_, fields) => !HidesEncode(v) && forall i :: 0 <= i < |fields| ==> Encodable(fields[i].val)
    case _ => true
  }

  predicate IsWire(a: Option<Val>) {
    a.Some? && a.value.Sc?
  }

  ghost predicate EncodesWell(spec: Spec, n: nat, ty: Ty, v: Val) {
    IsWire(Encode(spec, n, ty, Some(v))) && (Encode(spec, n, ty, Some(v)) == Some(Sc(SvVoid)) ==> v == PyNone)
  }

  /** Every well-typed value without such objects encodes, and only None encodes to void. */
  lemma {:induction false} WellTypedEncodes(spec: Spec, n: nat, ty: Ty, v: Val)
    requires Loads(spec) && WellTyped(spec, n, ty, v) && Encodable(v)
    ensures IsWire(Encode(spec, n, ty, Some(v)))
    ensures Encode(spec, n, ty, Some(v)) == Some(Sc(SvVoid)) ==> v == PyNone
    decreases n, ty, 1
  {
    hide Encode, WellTyped, Encodable, Loads;
    assert EncodesWell(spec, n, ty, v) by {
      hide *;
      match ty
      case Void => LeafEncodes(spec, n, ty, v);
      case Plain(_) => LeafEncodes(spec, n, ty, v);
      case BytesN => LeafEncodes(spec, n, ty, v);
      case Unknown => LeafEncodes(spec, n, ty, v);
      case Res(ok) =>
        TypedWrapper(spec, n, ok, v);
        WellTypedEncodes(spec, n, ok, v);
        WrapperEncodes(spec, n, ok, v);
      case Opt(value) =>
        TypedWrapper(spec, n, value, v);
        if v != PyNone {
          WellTypedEncodes(spec, n, value, v);
        }
        WrapperEncodes(spec, n, value, v);
      case Vec(elem) => VecEncodes(spec, n, elem, v);
      case Map(key, value) => DictEncodes(spec, n, key, value, v);
      case Tup(parts) => TupEncodes(spec, n, ty, v);
      case Udt(name) => ObjectEncodes(spec, n, name, v);
    }
  }

  lemma {:induction false} LeafEncodes(spec: Spec, n: nat, ty: Ty, v: Val)
    requires ty.Void? || ty.Plain? || ty.BytesN? || ty.Unknown?
    requires WellTyped(spec, n, ty, v)
    ensures EncodesWell(spec, n, ty, v)
  {
    if ty.Plain? {
      ScalarTablesAgree(ty.s);
    } else if ty.BytesN? {
      BytesInRange(v.data);
    }
    hide InRange, KindOf, EncoderOf;
  }

  lemma {:induction false} TypedWrapper(spec: Spec, n: nat, ty: Ty, v: Val)
    ensures WellTyped(spec, n, Res(ty), v) <==> WellTyped(spec, n, ty, v)
    ensures WellTyped(spec, n, Opt(ty), v) <==> v == PyNone || WellTyped(spec, n, ty, v)
  {
  }

  lemma {:induction false} WrapperEncodes(spec: Spec, n: nat, ty: Ty, v: Val)
    ensures IsWire(Encode(spec, n, ty, Some(v))) &&
            (Encode(spec, n, ty, Some(v)) == Some(Sc(SvVoid)) ==> v == PyNone) ==>
              EncodesWell(spec, n, Res(ty), v) && EncodesWell(spec, n, Opt(ty), v)
    ensures v == PyNone ==> EncodesWell(spec, n, Opt(ty), v)
  {
    EncodeUnfold(spec, n, ty, Some(v));
    hide Encode;
  }

  lemma {:induction false} VecEncodes(spec: Spec, n: nat, elem: Ty, v: Val)
    requires Loads(spec) && WellTyped(spec, n, Vec(elem), v) && Encodable(v)
    ensures EncodesWell(spec, n, Vec(elem), v)
    decreases n, Vec(elem), 0
  {
    hide Loads, InRange, HidesEncode;
    EachEncodes(spec, n, elem, v.items);
    hide EncodeEach;
  }

  lemma {:induction false} TupEncodes(spec: Spec, n: nat, ty: Ty, v: Val)
    requires Loads(spec) && ty.Tup? && WellTyped(spec, n, ty, v) && Encodable(v)
    ensures EncodesWell(spec, n, ty, v)
    decreases n, ty, 1, 0
  {
    TupleEncodes(spec, n, ty, v);
    hide Loads, WellTyped, Encodable, InRange, EncodeTuple, Collect;
  }

  lemma {:induction false} EncodeObjectUnfold(spec: Spec, n: nat, name: string, v: Val)
    requires n > 0 && name in spec && v.Obj? && v.cls == name
    ensures Encode(spec, n, Udt(name), Some(v))
         == if HidesEncode(v) then None
            else MakeStruct(spec[name], Collect(EncodeFields(spec, n - 1, spec[name], Some(v))))
  {
    hide HidesEncode, MakeStruct, Collect, EncodeFields;
  }

  lemma {:induction false} TypedObject(spec: Spec, n: nat, name: string, v: Val)
    requires WellTyped(spec, n, Udt(name), v)
    ensures n > 0 && name in spec && v.Obj? && v.cls == name && |v.fields| == |spec[name]|
    ensures forall i :: 0 <= i < |v.fields| ==>
              && v.fields[i].key == PyIdent(spec[name][i].name)
              && WellTyped(spec, n - 1, spec[name][i].ty, v.fields[i].val)
  {
    hide PyIdent, InRange;
  }

  lemma {:induction false} EncodableObject(v: Val)
    requires v.Obj?
    ensures Encodable(v) <==> !HidesEncode(v) && forall i :: 0 <= i < |v.fields| ==> Encodable(v.fields[i].val)
  {
    hide HidesEncode;
  }

  lemma {:induction false} LoadedStruct(spec: Spec, name: string)
    requires Loads(spec) && name in spec
    ensures ValidFields(spec[name])
  {
    hide ValidFields, ValidClass;
  }

  lemma {:induction false} ObjectEncodes(spec: Spec, n: nat, name: string, v: Val)
    requires Loads(spec) && WellTyped(spec, n, Udt(name), v) && Encodable(v)
    ensures EncodesWell(spec, n, Udt(name), v)
    decreases n, Udt(name), 0
  {
    hide *;
    TypedObject(spec, n, name, v);
    EncodableObject(v);
    EncodeObjectUnfold(spec, n, name, v);
    LoadedStruct(spec, name);
    FieldsEncode(spec, n - 1, spec[name], v);
    EachFieldLength(spec, n - 1, spec[name], v);
    MadeStruct(spec[name], Collect(EncodeFields(spec, n - 1, spec[name], Some(v))).value);
    StructEncodesWell(spec, n, name, v);
  }

  lemma {:induction false} EachFieldLength(spec: Spec, n: nat, fields: seq<Field>, v: Val)
    requires Collect(EncodeFields(spec, n, fields, Some(v))).Some?
    ensures |Collect(EncodeFields(spec, n, fields, Some(v))).value| == |fields|
  {
    hide Encode;
  }

  lemma {:induction false} MadeStruct(fields: seq<Field>, ws: seq<Val>)
    requires |ws| == |fields| && AllSc(ws)
    ensures var s := MakeStruct(fields, Some(ws)); IsWire(s) && s.value.sc.SvStruct?
  {
  }

  lemma {:induction false} StructEncodesWell(spec: Spec, n: nat, name: string, v: Val)
    requires IsWire(Encode(spec, n, Udt(name), Some(v))) && Encode(spec, n, Udt(name), Some(v)).value.sc.SvStruct?
    ensures EncodesWell(spec, n, Udt(name), v)
  {
    hide Encode;
  }

  lemma BytesInRange(d: int)
    ensures InRange(ScBytes, d)
  {
  }

  lemma {:induction false} EachEncodes(spec: Spec, n: nat, ty: Ty, xs: seq<Val>)
    requires Loads(spec) && forall i :: 0 <= i < |xs| ==> WellTyped(spec, n, ty, xs[i]) && Encodable(xs[i])
    ensures Collect(EncodeEach(spec, n, ty, xs)).Some? && AllSc(Collect(EncodeEach(spec, n, ty, xs)).value)
    decreases n, ty, 2
  {
    hide Encode, WellTyped, Loads, Encodable;
    var ws := EncodeEach(spec, n, ty, xs);
    forall i | 0 <= i < |xs| ensures IsWire(ws[i]) {
      WellTypedEncodes(spec, n, ty, xs[i]);
    }
  }

  lemma {:induction false} DictEncodes(spec: Spec, n: nat, key: Ty, value: Ty, v: Val)
    requires Loads(spec) && WellTyped(spec, n, Map(key, value), v) && Encodable(v)
    ensures EncodesWell(spec, n, Map(key, value), v)
    decreases n, Map(key, value), 0
  {
    TypedEntries(spec, n, key, value, v);
    hide WellTyped, Encodable, Loads;
    var es := v.pairs;
    EncodeDictUnfold(spec, n, key, value, es);
    EachEncodes(spec, n, key, Keys(es));
    EachEncodes(spec, n, value, Values(es));
    EachLength(spec, n, key, Keys(es));
    EachLength(spec, n, value, Values(es));
    hide Encode, EncodeEach, Collect;
    var ks := Collect(EncodeEach(spec, n, key, Keys(es))).value;
    var vs := Collect(EncodeEach(spec, n, value, Values(es))).value;
    WireDict(ks, vs);
  }

  lemma {:induction false} WireDict(ks: seq<Val>, vs: seq<Val>)
    requires |ks| == |vs| && AllSc(ks) && AllSc(vs)
    ensures var m := RunBuiltin(ToMap, MakeDict(Some(ks), Some(vs))); IsWire(m) && m.value.sc.SvMap?
  {
    hide InRange, Build;
    var z := Zip(ks, vs);
    BuildKeys(z);
    var d := Build(z);
    forall i | 0 <= i < |d| ensures d[i].key.Sc? && d[i].val.Sc? {
      assert d[i] in z;
    }
  }

  lemma {:induction false} TypedEntries(spec: Spec, n: nat, key: Ty, value: Ty, v: Val)
    requires WellTyped(spec, n, Map(key, value), v)
    ensures v.Dict?
    ensures forall i :: 0 <= i < |v.pairs| ==> WellTyped(spec, n, key, Keys(v.pairs)[i])
    ensures forall i :: 0 <= i < |v.pairs| ==> WellTyped(spec, n, value, Values(v.pairs)[i])
    ensures Encodable(v) <==> (forall i :: 0 <= i < |v.pairs| ==> Encodable(Keys(v.pairs)[i]))
                              && (forall i :: 0 <= i < |v.pairs| ==> Encodable(Values(v.pairs)[i]))
  {
    EncodableEntries(v.pairs);
    hide Hashable, InRange, PyIdent, Encodable;
  }

  lemma {:induction false} EncodableEntries(es: seq<Entry<Val, Val>>)
    ensures Encodable(Dict(es)) <==> (forall i :: 0 <= i < |es| ==> Encodable(Keys(es)[i]))
                                     && (forall i :: 0 <= i < |es| ==> Encodable(Values(es)[i]))
  {
    hide HidesEncode;
    assert Encodable(Dict(es)) <==> (forall i :: 0 <= i < |es| ==> Encodable(es[i].key))
                                    && (forall i :: 0 <= i < |es| ==> Encodable(es[i].val));
    hide Encodable;
    assert forall i :: 0 <= i < |es| ==> Keys(es)[i] == es[i].key && Values(es)[i] == es[i].val;
    if forall i :: 0 <= i < |es| ==> Encodable(Keys(es)[i]) {
      forall i | 0 <= i < |es| ensures Encodable(es[i].key) {
        assert Encodable(Keys(es)[i]);
      }
    }
    if forall i :: 0 <= i < |es| ==> Encodable(Values(es)[i]) {
      forall i | 0 <= i < |es| ensures Encodable(es[i].val) {
        assert Encodable(Values(es)[i]);
      }
    }
  }

  lemma {:induction false} TupleEncodes(spec: Spec, n: nat, ty: Ty, v: Val)
    requires Loads(spec) && ty.Tup? && WellTyped(spec, n, ty, v) && Encodable(v)
    ensures Collect(EncodeTuple(spec, n, ty, Some(v))).Some?
    ensures AllSc(Collect(EncodeTuple(spec, n, ty, Some(v))).value)
    decreases n, ty, 0
  {
    hide Encode, Loads;
    var ws := EncodeTuple(spec, n, ty, Some(v));
    forall i | 0 <= i < |ty.parts| ensures IsWire(ws[i]) {
      WellTypedEncodes(spec, n, ty.parts[i], v.items[i]);
    }
  }

  lemma {:induction false} FieldsEncode(spec: Spec, n: nat, fields: seq<Field>, v: Val)
    requires Loads(spec) && ValidFields(fields) && v.Obj? && |v.fields| == |fields| && Encodable(v)
    requires forall i :: 0 <= i < |fields| ==>
               v.fields[i].key == PyIdent(fields[i].name) && WellTyped(spec, n, fields[i].ty, v.fields[i].val)
    ensures Collect(EncodeFields(spec, n, fields, Some(v))).Some?
    ensures AllSc(Collect(EncodeFields(spec, n, fields, Some(v))).value)
    ensures forall i :: 0 <= i < |fields| ==>
              EncodeFields(spec, n, fields, Some(v))[i] == Encode(spec, n, fields[i].ty, Some(v.fields[i].val))
    decreases n
  {
    hide Encode, WellTyped, Loads, PyIdent;
    var ws := EncodeFields(spec, n, fields, Some(v));
    forall i | 0 <= i < |fields|
      ensures IsWire(ws[i]) && ws[i] == Encode(spec, n, fields[i].ty, Some(v.fields[i].val))
    {
      LookupAt(v.fields, i);
      WellTypedEncodes(spec, n, fields[i].ty, v.fields[i].val);
    }
  }

  // ---------- decoding undoes encoding ----------

  lemma {:induction false} VecConversions(ws: seq<Val>)
    requires AllSc(ws)
    ensures IsWire(RunBuiltin(ToVec, Some(List(ws))))
    ensures RunBuiltin(FromVec, RunBuiltin(ToVec, Some(List(ws)))) == Some(List(ws))
  {
    hide InRange;
    assert Wrap(Unwrap(ws)) == ws;
  }

  /** Decoding undoes encoding, by recursion over the type and the depth. */
  lemma {:induction false} DecodeAfterEncode(spec: Spec, n: nat, ty: Ty, v: Val)
    requires Loads(spec) && WellTyped(spec, n, ty, v) && Encodable(v) && NoOneTuple(v)
    ensures Decode(spec, n, ty, Encode(spec, n, ty, Some(v))) == Some(v)
    decreases n, ty, 1
  {
    hide *;
    match ty
    case Void => LeafRoundTrips(spec, n, ty, v);
    case Plain(_) => LeafRoundTrips(spec, n, ty, v);
    case BytesN => LeafRoundTrips(spec, n, ty, v);
    case Unknown => LeafRoundTrips(spec, n, ty, v);
    case Res(ok) =>
      TypedWrapper(spec, n, ok, v);
      DecodeAfterEncode(spec, n, ok, v);
      EncodeUnfold(spec, n, ok, Some(v));
      DecodeUnfold(spec, n, ok, Encode(spec, n, ok, Some(v)));
    case Opt(value) =>
      TypedWrapper(spec, n, value, v);
      EncodeUnfold(spec, n, value, Some(v));
      DecodeUnfold(spec, n, value, Encode(spec, n, ty, Some(v)));
      if v != PyNone {
        WellTypedEncodes(spec, n, value, v);
        WireIs(Encode(spec, n, value, Some(v)));
        DecodeAfterEncode(spec, n, value, v);
      }
    case Vec(elem) => VecRoundTrips(spec, n, elem, v);
    case Map(key, value) => DictRoundTrips(spec, n, key, value, v);
    case Tup(parts) => TupleRoundTrips(spec, n, ty, v);
    case Udt(name) => ObjectRoundTrips(spec, n, name, v);
  }

  lemma WireIs(a: Option<Val>)
    ensures IsWire(a) <==> a.Some? && a.value.Sc?
  {
  }

  lemma {:induction false} LeafRoundTrips(spec: Spec, n: nat, ty: Ty, v: Val)
    requires ty.Void? || ty.Plain? || ty.BytesN? || ty.Unknown?
    requires WellTyped(spec, n, ty, v)
    ensures Decode(spec, n, ty, Encode(spec, n, ty, Some(v))) == Some(v)
  {
    if ty.Plain? {
      ScalarTablesAgree(ty.s);
    } else if ty.BytesN? {
      BytesInRange(v.data);
    }
    hide InRange, KindOf, EncoderOf, DecoderOf;
  }

  lemma {:induction false} VecRoundTrips(spec: Spec, n: nat, elem: Ty, v: Val)
    requires Loads(spec) && WellTyped(spec, n, Vec(elem), v) && Encodable(v) && NoOneTuple(v)
    ensures Decode(spec, n, Vec(elem), Encode(spec, n, Vec(elem), Some(v))) == Some(v)
    decreases n, Vec(elem), 0
  {
    hide Loads, InRange, HidesEncode;
    EachRoundTrips(spec, n, elem, v.items);
    hide EncodeEach, DecodeEach, Collect, WellTyped, Encodable, NoOneTuple;
    VecConversions(Collect(EncodeEach(spec, n, elem, v.items)).value);
  }

  lemma {:induction false} EachRoundTrips(spec: Spec, n: nat, ty: Ty, xs: seq<Val>)
    requires Loads(spec)
    requires forall i :: 0 <= i < |xs| ==> WellTyped(spec, n, ty, xs[i]) && Encodable(xs[i]) && NoOneTuple(xs[i])
    ensures var ws := Collect(EncodeEach(spec, n, ty, xs));
            ws.Some? && AllSc(ws.value) && Collect(DecodeEach(spec, n, ty, ws.value)) == Some(xs)
    decreases n, ty, 2
  {
    hide Encode, Decode, WellTyped, Loads, NoOneTuple, Encodable;
    EachEncodes(spec, n, ty, xs);
    var ws := Collect(EncodeEach(spec, n, ty, xs)).value;
    forall i | 0 <= i < |xs| ensures DecodeEach(spec, n, ty, ws)[i] == Some(xs[i]) {
      assert EncodeEach(spec, n, ty, xs)[i] == Encode(spec, n, ty, Some(xs[i]));
      DecodeAfterEncode(spec, n, ty, xs[i]);
    }
    assert Collect(DecodeEach(spec, n, ty, ws)).value == xs;
  }

  /** Keys stay distinct on the wire because decoding tells them apart again. */
  lemma {:induction false} EncodedKeysDistinct(spec: Spec, n: nat, ty: Ty, xs: seq<Val>)
    requires Loads(spec)
    requires forall i :: 0 <= i < |xs| ==> WellTyped(spec, n, ty, xs[i]) && Encodable(xs[i]) && NoOneTuple(xs[i])
    requires forall i, j :: 0 <= i < j < |xs| ==> xs[i] != xs[j]
    ensures var ws := Collect(EncodeEach(spec, n, ty, xs));
            ws.Some? && forall i, j :: 0 <= i < j < |ws.value| ==> ws.value[i] != ws.value[j]
    decreases n, ty, 3
  {
    hide Encode, Decode, WellTyped, Loads, NoOneTuple, Encodable;
    EachRoundTrips(spec, n, ty, xs);
    var ws := Collect(EncodeEach(spec, n, ty, xs)).value;
    forall i, j | 0 <= i < j < |ws| ensures ws[i] != ws[j] {
      assert DecodeEach(spec, n, ty, ws)[i] == Some(xs[i]);
      assert DecodeEach(spec, n, ty, ws)[j] == Some(xs[j]);
    }
  }

  lemma {:induction false} EncodeDictUnfold(spec: Spec, n: nat, key: Ty, value: Ty, es: seq<Entry<Val, Val>>)
    ensures Encode(spec, n, Map(key, value), Some(Dict(es)))
         == RunBuiltin(ToMap, MakeDict(Collect(EncodeEach(spec, n, key, Keys(es))),
                                       Collect(EncodeEach(spec, n, value, Values(es)))))
  {
    hide RunBuiltin, MakeDict, Collect, EncodeEach;
  }

  lemma {:induction false} DecodeDictUnfold(spec: Spec, n: nat, key: Ty, value: Ty, a: Option<Val>, es: seq<Entry<Val,
                                            Val>>)
    requires RunBuiltin(FromMap, a) == Some(Dict(es))
    ensures Decode(spec, n, Map(key, value), a)
         == MakeDict(Collect(DecodeEach(spec, n, key, Keys(es))), Collect(DecodeEach(spec, n, value, Values(es))))
  {
    hide RunBuiltin, MakeDict, Collect, DecodeEach;
  }

  lemma {:induction false} DictConversions(ks: seq<Val>, vs: seq<Val>)
    requires |ks| == |vs| && AllSc(ks) && AllSc(vs)
    requires forall i, j :: 0 <= i < j < |ks| ==> ks[i] != ks[j]
    ensures MakeDict(Some(ks), Some(vs)) == Some(Dict(Zip(ks, vs)))
    ensures RunBuiltin(FromMap, RunBuiltin(ToMap, Some(Dict(Zip(ks, vs))))) == Some(Dict(Zip(ks, vs)))
    ensures Keys(Zip(ks, vs)) == ks && Values(Zip(ks, vs)) == vs
  {
    hide InRange, Build;
    var z := Zip(ks, vs);
    BuildDistinct(z);
    ToMapTotal(z);
    MapConversions(z, RunBuiltin(ToMap, Some(Dict(z))).value);
  }

  lemma {:induction false} DictRebuilt(es: seq<Entry<Val, Val>>)
    requires DistinctKeys(es) && forall i :: 0 <= i < |es| ==> Hashable(es[i].key)
    ensures MakeDict(Some(Keys(es)), Some(Values(es))) == Some(Dict(es))
  {
    hide Build, Hashable;
    assert Zip(Keys(es), Values(es)) == es;
    BuildDistinct(es);
  }

  lemma {:induction false} TypedDict(spec: Spec, n: nat, key: Ty, value: Ty, v: Val)
    requires WellTyped(spec, n, Map(key, value), v) && Encodable(v) && NoOneTuple(v)
    ensures v.Dict? && DistinctKeys(v.pairs) && forall i :: 0 <= i < |v.pairs| ==> Hashable(v.pairs[i].key)
    ensures forall i, j :: 0 <= i < j < |v.pairs| ==> Keys(v.pairs)[i] != Keys(v.pairs)[j]
    ensures forall i :: 0 <= i < |v.pairs| ==>
              WellTyped(spec, n, key, Keys(v.pairs)[i]) && Encodable(Keys(v.pairs)[i]) && NoOneTuple(Keys(v.pairs)[i])
    ensures forall i :: 0 <= i < |v.pairs| ==>
              && WellTyped(spec, n, value, Values(v.pairs)[i])
              && Encodable(Values(v.pairs)[i]) && NoOneTuple(Values(v.pairs)[i])
  {
    hide Hashable, InRange, PyIdent;
  }

  lemma {:induction false} DictRoundTrips(spec: Spec, n: nat, key: Ty, value: Ty, v: Val)
    requires Loads(spec) && WellTyped(spec, n, Map(key, value), v) && Encodable(v) && NoOneTuple(v)
    ensures Decode(spec, n, Map(key, value), Encode(spec, n, Map(key, value), Some(v))) == Some(v)
    decreases n, Map(key, value), 0
  {
    hide *;
    TypedDict(spec, n, key, value, v);
    var es := v.pairs;
    EncodedKeysDistinct(spec, n, key, Keys(es));
    EachRoundTrips(spec, n, key, Keys(es));
    EachRoundTrips(spec, n, value, Values(es));
    EachLength(spec, n, key, Keys(es));
    EachLength(spec, n, value, Values(es));
    var ks := Collect(EncodeEach(spec, n, key, Keys(es))).value;
    var vs := Collect(EncodeEach(spec, n, value, Values(es))).value;
    DictConversions(ks, vs);
    EncodeDictUnfold(spec, n, key, value, es);
    DecodeDictUnfold(spec, n, key, value, RunBuiltin(ToMap, Some(Dict(Zip(ks, vs)))), Zip(ks, vs));
    DictRebuilt(es);
  }

  lemma {:induction false} EachLength(spec: Spec, n: nat, ty: Ty, xs: seq<Val>)
    requires Collect(EncodeEach(spec, n, ty, xs)).Some?
    ensures |Collect(EncodeEach(spec, n, ty, xs)).value| == |xs|
  {
    hide Encode;
  }

  lemma {:induction false} ToMapTotal(z: seq<Entry<Val, Val>>)
    requires forall i :: 0 <= i < |z| ==> z[i].key.Sc? && z[i].val.Sc?
    ensures IsWire(RunBuiltin(ToMap, Some(Dict(z))))
  {
    hide InRange;
  }

  lemma {:induction false} TupleRoundTrips(spec: Spec, n: nat, ty: Ty, v: Val)
    requires Loads(spec) && ty.Tup? && WellTyped(spec, n, ty, v) && Encodable(v) && NoOneTuple(v)
    ensures Decode(spec, n, ty, Encode(spec, n, ty, Some(v))) == Some(v)
    decreases n, ty, 0
  {
    hide InRange, PyIdent, Loads;
    TupleEncodes(spec, n, ty, v);
    var ws := Collect(EncodeTuple(spec, n, ty, Some(v))).value;
    VecConversions(ws);
    if ty.parts != [] {
      TuplePartsRoundTrip(spec, n, ty, v, ws);
      assert Collect(DecodeTuple(spec, n, ty, Some(List(ws)))).value == v.items;
    }
  }

  lemma {:induction false} TuplePartsRoundTrip(spec: Spec, n: nat, ty: Ty, v: Val, ws: seq<Val>)
    requires Loads(spec) && ty.Tup? && ty.parts != [] && WellTyped(spec, n, ty, v) && Encodable(v) && NoOneTuple(v)
    requires Collect(EncodeTuple(spec, n, ty, Some(v))) == Some(ws)
    ensures forall i :: 0 <= i < |ty.parts| ==> DecodeTuple(spec, n, ty, Some(List(ws)))[i] == Some(v.items[i])
    decreases n, ty, 0, 0
  {
    hide Encode, Decode, Loads;
    forall i | 0 <= i < |ty.parts| ensures DecodeTuple(spec, n, ty, Some(List(ws)))[i] == Some(v.items[i]) {
      assert EncodeTuple(spec, n, ty, Some(v))[i] == Encode(spec, n, ty.parts[i], Some(v.items[i]));
      DecodeAfterEncode(spec, n, ty.parts[i], v.items[i]);
    }
  }

  lemma {:induction false} ObjectRoundTrips(spec: Spec, n: nat, name: string, v: Val)
    requires Loads(spec) && WellTyped(spec, n, Udt(name), v) && Encodable(v) && NoOneTuple(v)
    ensures Decode(spec, n, Udt(name), Encode(spec, n, Udt(name), Some(v))) == Some(v)
    decreases n, Udt(name), 0
  {
    hide InRange, PyIdent;
    var fields := spec[name];
    FieldsEncode(spec, n - 1, fields, v);
    var ws := Collect(EncodeFields(spec, n - 1, fields, Some(v))).value;
    var s := MakeStruct(fields, Some(ws));
    MembersAreFields(fields, ws);
    FieldsRoundTrip(spec, n - 1, fields, v, ws, FromStruct(s));
    var ds := DecodeFields(spec, n - 1, fields, FromStruct(s));
    assert Collect(ds).Some?;
    assert MakeObject(name, fields, Collect(ds)).value.fields == v.fields;
  }

  /** `from_struct` undoes `to_struct`, key by key. */
  lemma {:induction false} MembersAreFields(fields: seq<Field>, ws: seq<Val>)
    requires ValidFields(fields) && |ws| == |fields| && AllSc(ws)
    ensures var s := MakeStruct(fields, Some(ws));
            IsWire(s) && FromStruct(s).Some? &&
            forall i :: 0 <= i < |fields| ==> Member(FromStruct(s), fields[i].name) == Some(ws[i])
  {
    hide PyIdent, InRange;
    var f := FromStruct(MakeStruct(fields, Some(ws)));
    var ms := f.value.members;
    forall i | 0 <= i < |fields| ensures Member(f, fields[i].name) == Some(ws[i]) {
      assert ms[i] == Entry(fields[i].name, ws[i]);
      assert DistinctKeys(ms);
      LookupAt(ms, i);
    }
  }

  lemma {:induction false} FieldsRoundTrip(spec: Spec, n: nat, fields: seq<Field>, v: Val, ws: seq<Val>, f: Option<Val>)
    requires Loads(spec) && ValidFields(fields) && v.Obj? && |v.fields| == |fields| == |ws|
    requires Encodable(v) && NoOneTuple(v)
    requires forall i :: 0 <= i < |fields| ==>
               v.fields[i].key == PyIdent(fields[i].name) && WellTyped(spec, n, fields[i].ty, v.fields[i].val)
    requires forall i :: 0 <= i < |fields| ==> Encode(spec, n, fields[i].ty, Some(v.fields[i].val)) == Some(ws[i])
    requires forall i :: 0 <= i < |fields| ==> Member(f, fields[i].name) == Some(ws[i])
    ensures forall i :: 0 <= i < |fields| ==> DecodeFields(spec, n, fields, f)[i] == Some(v.fields[i].val)
    decreases n
  {
    hide Encode, Decode, WellTyped, Loads, PyIdent;
    forall i | 0 <= i < |fields| ensures DecodeFields(spec, n, fields, f)[i] == Some(v.fields[i].val) {
      DecodeAfterEncode(spec, n, fields[i].ty, v.fields[i].val);
    }
  }

  // ---------- decoded values hold no one-element tuple ----------

  /** Decoding never produces a one-element tuple. */
  lemma {:induction false} DecodedHasNoOneTuple(spec: Spec, n: nat, ty: Ty, a: Option<Val>)
    requires IsWire(a) && Decode(spec, n, ty, a).Some?
    ensures NoOneTuple(Decode(spec, n, ty, a).value)
    decreases n, ty, 1
  {
    hide InRange, PyIdent, Build, Zip, Hashable;
    match ty
    case Void =>
    case Plain(_) =>
    case BytesN =>
    case Unknown =>
    case Res(ok) => DecodedHasNoOneTuple(spec, n, ok, a);
    case Opt(value) =>
      if a != Some(Sc(SvVoid)) {
        DecodedHasNoOneTuple(spec, n, value, a);
      }
    case Vec(elem) => EachHasNoOneTuple(spec, n, elem, Iterate(RunBuiltin(FromVec, a)).value);
    case Map(key, value) => DictHasNoOneTuple(spec, n, key, value, a);
    case Tup(parts) =>
      if parts != [] {
        TupleHasNoOneTuple(spec, n, ty, RunBuiltin(FromVec, a));
      }
    case Udt(name) =>
      StructIsWire(a);
      FieldsHaveNoOneTuple(spec, n - 1, spec[name], FromStruct(a));
  }

  lemma {:induction false} EachHasNoOneTuple(spec: Spec, n: nat, ty: Ty, xs: seq<Val>)
    requires AllSc(xs) && Collect(DecodeEach(spec, n, ty, xs)).Some?
    ensures forall v :: v in Collect(DecodeEach(spec, n, ty, xs)).value ==> NoOneTuple(v)
    decreases n, ty, 2
  {
    hide Decode, NoOneTuple;
    var ds := DecodeEach(spec, n, ty, xs);
    forall i | 0 <= i < |xs| ensures NoOneTuple(Collect(ds).value[i]) {
      assert ds[i] == Decode(spec, n, ty, Some(xs[i]));
      DecodedHasNoOneTuple(spec, n, ty, Some(xs[i]));
    }
  }

  lemma {:induction false} DictHasNoOneTuple(spec: Spec, n: nat, key: Ty, value: Ty, a: Option<Val>)
    requires IsWire(a) && Decode(spec, n, Map(key, value), a).Some?
    ensures NoOneTuple(Decode(spec, n, Map(key, value), a).value)
    decreases n, Map(key, value), 0
  {
    hide InRange, PyIdent, Build, Hashable;
    var es := Items(RunBuiltin(FromMap, a)).value;
    var ks := Collect(DecodeEach(spec, n, key, Keys(es)));
    var vs := Collect(DecodeEach(spec, n, value, Values(es)));
    EachHasNoOneTuple(spec, n, key, Keys(es));
    EachHasNoOneTuple(spec, n, value, Values(es));
    var z := Zip(ks.value, vs.value);
    BuildKeys(z);
    var d := Build(z);
    assert Decode(spec, n, Map(key, value), a) == Some(Dict(d));
    forall i | 0 <= i < |d| ensures NoOneTuple(d[i].key) && NoOneTuple(d[i].val) {
      assert d[i] in z;
    }
  }

  lemma {:induction false} TupleHasNoOneTuple(spec: Spec, n: nat, ty: Ty, l: Option<Val>)
    requires ty.Tup? && l.Some? && l.value.List? && AllSc(l.value.items)
    requires Collect(DecodeTuple(spec, n, ty, l)).Some?
    ensures forall i :: 0 <= i < |ty.parts| ==> NoOneTuple(Collect(DecodeTuple(spec, n, ty, l)).value[i])
    decreases n, ty, 0
  {
    hide NoOneTuple, InRange, PyIdent;
    var ds := DecodeTuple(spec, n, ty, l);
    forall i | 0 <= i < |ty.parts| ensures NoOneTuple(Collect(ds).value[i]) {
      assert ds[i] == Decode(spec, n, ty.parts[i], At(l, i));
      if IsWire(At(l, i)) {
        DecodedHasNoOneTuple(spec, n, ty.parts[i], At(l, i));
      } else {
        RaisedHasNoOneTuple(spec, n, ty.parts[i]);
      }
    }
  }

  /** All that decodes without an argument is the empty tuple. */
  lemma {:induction false} RaisedHasNoOneTuple(spec: Spec, n: nat, ty: Ty)
    ensures Decode(spec, n, ty, None).Some? ==> NoOneTuple(Decode(spec, n, ty, None).value)
    decreases ty
  {
    hide InRange, PyIdent;
    if ty.Res? {
      RaisedHasNoOneTuple(spec, n, ty.ok);
    }
  }

  lemma {:induction false} StructIsWire(a: Option<Val>)
    requires FromStruct(a).Some?
    ensures FromStruct(a).value.Record?
    ensures forall name :: WireOrRaised(Member(FromStruct(a), name))
    ensures forall name :: Member(FromStruct(a), name).Some? ==> IsWire(Member(FromStruct(a), name))
  {
    forall name | Member(FromStruct(a), name).Some? ensures IsWire(Member(FromStruct(a), name)) {
      LookupIsThere(FromStruct(a).value.members, name);
    }
  }

  lemma {:induction false} LookupIsThere<V>(es: seq<Entry<string, V>>, name: string)
    requires Lookup(es, name).Some?
    ensures Entry(name, Lookup(es, name).value) in es
    decreases |es|
  {
    if es[0].key != name {
      LookupIsThere(es[1..], name);
    }
  }

  lemma {:induction false} FieldsHaveNoOneTuple(spec: Spec, n: nat, fields: seq<Field>, f: Option<Val>)
    requires forall name :: Member(f, name).Some? ==> IsWire(Member(f, name))
    requires Collect(DecodeFields(spec, n, fields, f)).Some?
    ensures forall i :: 0 <= i < |fields| ==> NoOneTuple(Collect(DecodeFields(spec, n, fields, f)).value[i])
    decreases n
  {
    hide NoOneTuple, InRange, PyIdent;
    var ds := DecodeFields(spec, n, fields, f);
    forall i | 0 <= i < |fields| ensures NoOneTuple(Collect(ds).value[i]) {
      assert ds[i] == Decode(spec, n, fields[i].ty, Member(f, fields[i].name));
      if Member(f, fields[i].name).Some? {
        DecodedHasNoOneTuple(spec, n, fields[i].ty, Member(f, fields[i].name));
      } else {
        RaisedHasNoOneTuple(spec, n, fields[i].ty);
      }
    }
  }

  /** So nothing that decodes at a one-element tuple type has its annotation, `tuple[T]`. */
  lemma {:induction false} OneTupleNeverInhabits(spec: Spec, n: nat, t: Ty, a: Option<Val>)
    requires WireOrRaised(a) && Decode(spec, n, Tup([t]), a).Some?
    ensures !Inhabits(spec, n, PyType(spec, Tup([t])), Decode(spec, n, Tup([t]), a).value)
  {
    TupleNeedsWire(spec, n, [t], a);
    hide Decode, PyIdent, InRange;
    DecodedHasNoOneTuple(spec, n, Tup([t]), a);
  }

  lemma {:induction false} TupleNeedsWire(spec: Spec, n: nat, parts: seq<Ty>, a: Option<Val>)
    requires parts != [] && Decode(spec, n, Tup(parts), a).Some?
    ensures IsWire(a)
  {
    hide InRange, IsKeyword, Collect;
  }

  // ---------- main results ----------

  /** A well-typed value encodes if and only if the generated module loads and no object in it hides its `_encode`; and
      decoding gives it back if and only if it encodes and holds no one-element tuple. */
  lemma {:induction false} CodecRoundTrip(spec: Spec, n: nat, ty: Ty, v: Val)
    requires WellTyped(spec, n, ty, v)
    ensures var w := ClientEncode(spec, n, ty, Some(v));
            && (w.Some? <==> Loads(spec) && Encodable(v)) && (w.Some? ==> w.value.Sc?)
            && (ClientDecode(spec, n, ty, w) == Some(v) <==> Loads(spec) && Encodable(v) && NoOneTuple(v))
  {
    hide Encode, Decode, WellTyped, NoOneTuple, Loads, Encodable;
    if Loads(spec) {
      LoadedRoundTrip(spec, n, ty, v);
    }
  }

  lemma {:induction false} LoadedRoundTrip(spec: Spec, n: nat, ty: Ty, v: Val)
    requires Loads(spec) && WellTyped(spec, n, ty, v)
    ensures var w := Encode(spec, n, ty, Some(v));
            && (w.Some? <==> Encodable(v)) && (w.Some? ==> w.value.Sc?)
            && (Decode(spec, n, ty, w) == Some(v) <==> Encodable(v) && NoOneTuple(v))
  {
    hide Encode, Decode, WellTyped, NoOneTuple, Loads, Encodable;
    var w := Encode(spec, n, ty, Some(v));
    if Encodable(v) {
      WellTypedEncodes(spec, n, ty, v);
      if NoOneTuple(v) {
        DecodeAfterEncode(spec, n, ty, v);
      } else if Decode(spec, n, ty, w).Some? {
        DecodedHasNoOneTuple(spec, n, ty, w);
      }
    } else {
      UnencodableRaises(spec, n, ty, v);
      RaisedDecodesToNone(spec, n, ty);
      NoneIsEncodable();
    }
  }

  lemma NoneIsEncodable()
    ensures Encodable(PyNone)
  {
  }

  /** All that decodes without an argument is the empty tuple. */
  lemma {:induction false} RaisedDecodesToNone(spec: Spec, n: nat, ty: Ty)
    ensures Decode(spec, n, ty, None).None? || Decode(spec, n, ty, None) == Some(PyNone)
    decreases ty
  {
    hide InRange, PyIdent;
    if ty.Res? {
      RaisedDecodesToNone(spec, n, ty.ok);
    }
  }

  /** The same of the emitted Python, in any scope. */
  lemma {:induction false} EmittedCodeRoundTrip(spec: Spec, n: nat, ty: Ty, e: Expr, env: Env, v: Val)
    requires WellTyped(spec, n, ty, v) && Eval(spec, n, e, env) == Some(v)
    ensures var w := ClientEval(spec, n, EncodeExpr(ty, e), env);
            && (w.Some? <==> Loads(spec) && Encodable(v)) && (w.Some? ==> w.value.Sc?)
            && (ClientEval(spec, n, DecodeExpr(ty, EncodeExpr(ty, e)), env) == Some(v)
                <==> Loads(spec) && Encodable(v) && NoOneTuple(v))
  {
    hide Eval, Encode, Decode, WellTyped, NoOneTuple, Loads, Encodable, EncodeExpr, DecodeExpr;
    EncodeIsScoped(spec, n, ty, e, env);
    DecodeIsScoped(spec, n, ty, EncodeExpr(ty, e), env);
    if Loads(spec) {
      LoadedRoundTrip(spec, n, ty, v);
    }
  }

  /** No two values without one-element tuples have the same encoding. */
  lemma {:induction false} EncodeIsInjective(spec: Spec, n: nat, ty: Ty, v: Val, w: Val)
    requires WellTyped(spec, n, ty, v) && NoOneTuple(v)
    requires WellTyped(spec, n, ty, w) && NoOneTuple(w)
    requires ClientEncode(spec, n, ty, Some(v)).Some?
    requires ClientEncode(spec, n, ty, Some(v)) == ClientEncode(spec, n, ty, Some(w))
    ensures v == w
  {
    hide Encode, Decode, WellTyped, NoOneTuple, Loads, Encodable;
    CodecRoundTrip(spec, n, ty, v);
    CodecRoundTrip(spec, n, ty, w);
  }

  // ---------- objects that hide their method ----------

  /** A value with an object that hides its `_encode` raises, however deep the object is. */
  lemma {:induction false} UnencodableRaises(spec: Spec, n: nat, ty: Ty, v: Val)
    requires Loads(spec) && WellTyped(spec, n, ty, v) && !Encodable(v)
    ensures Encode(spec, n, ty, Some(v)).None?
    decreases n, ty, 1
  {
    hide InRange, PyIdent, Build, Zip, Hashable, ValidFields, DistinctKeys, HidesEncode;
    match ty
    case Res(ok) => UnencodableRaises(spec, n, ok, v);
    case Opt(value) => UnencodableRaises(spec, n, value, v);
    case Vec(elem) => UnencodableEachRaises(spec, n, elem, v.items);
    case Map(key, value) => UnencodableDictRaises(spec, n, key, value, v);
    case Tup(parts) => UnencodableTupleRaises(spec, n, ty, v);
    case Udt(name) => UnencodableObjectRaises(spec, n, name, v);
    case _ =>
  }

  lemma {:induction false} UnencodableEachRaises(spec: Spec, n: nat, ty: Ty, xs: seq<Val>)
    requires Loads(spec) && forall i :: 0 <= i < |xs| ==> WellTyped(spec, n, ty, xs[i])
    requires exists i :: 0 <= i < |xs| && !Encodable(xs[i])
    ensures Collect(EncodeEach(spec, n, ty, xs)).None?
    decreases n, ty, 2
  {
    hide Encode, WellTyped, Loads, Encodable;
    var i :| 0 <= i < |xs| && !Encodable(xs[i]);
    UnencodableRaises(spec, n, ty, xs[i]);
    assert EncodeEach(spec, n, ty, xs)[i].None?;
  }

  lemma {:induction false} UnencodableDictRaises(spec: Spec, n: nat, key: Ty, value: Ty, v: Val)
    requires Loads(spec) && WellTyped(spec, n, Map(key, value), v) && !Encodable(v)
    ensures Encode(spec, n, Map(key, value), Some(v)).None?
    decreases n, Map(key, value), 0
  {
    hide *;
    TypedEntries(spec, n, key, value, v);
    EncodeDictUnfold(spec, n, key, value, v.pairs);
    if exists i :: 0 <= i < |v.pairs| && !Encodable(Keys(v.pairs)[i]) {
      UnencodableEachRaises(spec, n, key, Keys(v.pairs));
    } else {
      UnencodableEachRaises(spec, n, value, Values(v.pairs));
    }
    RaisedDict(Collect(EncodeEach(spec, n, key, Keys(v.pairs))), Collect(EncodeEach(spec, n, value, Values(v.pairs))));
  }

  lemma {:induction false} RaisedDict(ks: Option<seq<Val>>, vs: Option<seq<Val>>)
    requires ks.None? || vs.None?
    ensures RunBuiltin(ToMap, MakeDict(ks, vs)).None?
  {
    hide InRange;
  }

  lemma {:induction false} UnencodableTupleRaises(spec: Spec, n: nat, ty: Ty, v: Val)
    requires Loads(spec) && ty.Tup? && WellTyped(spec, n, ty, v) && !Encodable(v)
    ensures Encode(spec, n, ty, Some(v)).None?
    decreases n, ty, 0
  {
    hide InRange, PyIdent, Loads;
    var i :| 0 <= i < |v.items| && !Encodable(v.items[i]);
    UnencodableRaises(spec, n, ty.parts[i], v.items[i]);
    assert EncodeTuple(spec, n, ty, Some(v))[i].None?;
  }

  lemma {:induction false} UnencodableObjectRaises(spec: Spec, n: nat, name: string, v: Val)
    requires Loads(spec) && WellTyped(spec, n, Udt(name), v) && !Encodable(v)
    ensures Encode(spec, n, Udt(name), Some(v)).None?
    decreases n, Udt(name), 0
  {
    hide *;
    TypedObject(spec, n, name, v);
    EncodableObject(v);
    EncodeObjectUnfold(spec, n, name, v);
    LoadedStruct(spec, name);
    if !HidesEncode(v) {
      var i :| 0 <= i < |v.fields| && !Encodable(v.fields[i].val);
      UnencodableRaises(spec, n - 1, spec[name][i].ty, v.fields[i].val);
      FieldRaises(spec, n - 1, spec[name], v, i);
    }
  }

  lemma {:induction false} FieldRaises(spec: Spec, n: nat, fields: seq<Field>, v: Val, i: nat)
    requires ValidFields(fields) && v.Obj? && |v.fields| == |fields| && i < |fields|
    requires forall k :: 0 <= k < |fields| ==> v.fields[k].key == PyIdent(fields[k].name)
    requires Encode(spec, n, fields[i].ty, Some(v.fields[i].val)).None?
    ensures MakeStruct(fields, Collect(EncodeFields(spec, n, fields, Some(v)))).None?
  {
    hide Encode, PyIdent, IsIdentifier, IsMethodName;
    LookupAt(v.fields, i);
    assert EncodeFields(spec, n, fields, Some(v))[i].None?;
  }

  /** So every object of a struct with a field `_encode` raises, in a module that loads. */
  lemma {:induction false} EncodeFieldHidesMethod(spec: Spec, n: nat, name: string, v: Val)
    requires WellTyped(spec, n, Udt(name), v)
    requires exists i :: 0 <= i < |spec[name]| && spec[name][i].name == "_encode"
    ensures ClientEncode(spec, n, Udt(name), Some(v)).None?
  {
    var i :| 0 <= i < |spec[name]| && spec[name][i].name == ENCODE;
    MethodNamesAreKept(ENCODE);
    hide InRange, PyIdent;
    if Loads(spec) {
      assert v.fields[i].key == ENCODE;
      LookupAt(v.fields, i);
      CodecRoundTrip(spec, n, Udt(name), v);
    }
  }

  // ---------- which modules load ----------

  lemma {:induction false} KeywordIsIdentifier(s: string)
    requires IsKeyword(s)
    ensures IsIdentifier(s)
  {
    KeywordIsLetters(s);
    KeywordHasParts(s);
    hide IsKeyword;
  }

  lemma {:induction false} KeywordHasParts(s: string)
    requires IsKeyword(s)
    ensures AllIdentifierParts(s)
  {
  }

  lemma {:induction false} MethodNamesAreKept(name: string)
    ensures IsMethodName(PyIdent(name)) <==> IsMethodName(name)
    ensures name == ENCODE ==> PyIdent(name) == ENCODE
  {
    MethodNamesBegin(name);
    MethodNamesBegin(PyIdent(name));
    if IsKeyword(name) {
      KeywordIsLetters(name);
      assert PyIdent(name) == name + ['_'] && PyIdent(name)[0] == name[0];
    } else {
      assert PyIdent(name) == name;
    }
    hide *;
    if IsKeyword(name) {
      NoMethodIsKeyword(name);
    }
  }

  lemma {:induction false} NoMethodIsKeyword(name: string)
    requires IsKeyword(name)
    ensures name != ENCODE
  {
    KeywordIsLetters(name);
    hide IsKeyword;
    assert ENCODE[0] == '_';
  }

  lemma MethodNamesBegin(name: string)
    ensures IsMethodName(name) ==> name != "" && name[0] == '_'
  {
  }

  lemma {:induction false} KeywordIsLetters(s: string)
    requires IsKeyword(s)
    ensures s != [] && s[0] != '_' && IsLetter(s[0])
  {
  }

  lemma {:induction false} EscapeIsIdentifier(name: string)
    ensures IsIdentifier(PyIdent(name)) <==> IsIdentifier(name)
  {
    if IsKeyword(name) {
      KeywordIsIdentifier(name);
    }
    hide IsKeyword;
  }

  /** Two fields that cannot stand in one class in this order. */
  predicate Clash(a: string, b: string) {
    || a == b || (IsKeyword(a) && b == a + ['_']) || (IsKeyword(b) && a == b + ['_'])
    || (IsMethodName(a) && !IsMethodName(b))
  }

  /** The module loads if and only if every struct is called by a name that is no keyword, every field is a name, and no
      struct has a field twice, a keyword and its escape, or a field after one that is called like a method. */
  lemma {:induction false} LoadsExactly(spec: Spec)
    ensures Loads(spec) <==>
              forall struct | struct in spec ::
                && ValidClass(struct)
                && (forall i :: 0 <= i < |spec[struct]| ==> IsIdentifier(spec[struct][i].name))
                && (forall i, j :: 0 <= i < j < |spec[struct]| ==> !Clash(spec[struct][i].name, spec[struct][j].name))
  {
    hide ValidClass, IsIdentifier, Clash, ValidFields;
    forall struct | struct in spec
      ensures ValidFields(spec[struct]) <==>
                && (forall i :: 0 <= i < |spec[struct]| ==> IsIdentifier(spec[struct][i].name))
                && (forall i, j :: 0 <= i < j < |spec[struct]| ==> !Clash(spec[struct][i].name, spec[struct][j].name))
    {
      FieldsExactly(spec[struct]);
    }
  }

  lemma {:induction false} FieldsExactly(fields: seq<Field>)
    ensures ValidFields(fields) <==>
              && (forall i :: 0 <= i < |fields| ==> IsIdentifier(fields[i].name))
              && (forall i, j :: 0 <= i < j < |fields| ==> !Clash(fields[i].name, fields[j].name))
  {
    hide IsKeyword, PyIdent, IsIdentifier, IsMethodName;
    forall i | 0 <= i < |fields|
      ensures IsIdentifier(PyIdent(fields[i].name)) <==> IsIdentifier(fields[i].name)
      ensures IsMethodName(PyIdent(fields[i].name)) <==> IsMethodName(fields[i].name)
    {
      EscapeIsIdentifier(fields[i].name);
      MethodNamesAreKept(fields[i].name);
    }
    forall i, j | 0 <= i < j < |fields|
      ensures PyIdent(fields[i].name) == PyIdent(fields[j].name)
              || (IsMethodName(fields[i].name) && !IsMethodName(fields[j].name))
              <==> Clash(fields[i].name, fields[j].name)
    {
      IdentifiersCollide(fields[i].name, fields[j].name);
    }
  }

  /** A tuple struct has fields called "0", "1", and so on: with one that has a field, the module does not load. */
  lemma {:induction false} TupleStructDoesNotLoad(spec: Spec, struct: string, i: nat)
    requires struct in spec && i < |spec[struct]|
    requires spec[struct][i].name != "" && '0' <= spec[struct][i].name[0] <= '9'
    ensures !Loads(spec)
  {
    var name := spec[struct][i].name;
    if IsKeyword(name) {
      KeywordIsIdentifier(name);
    }
    hide IsKeyword;
    assert !IsIdentifier(PyIdent(name));
  }

  /** For instance `Pair(u32, bool)`. */
  lemma {:induction false} PairDoesNotLoad()
    ensures !Loads(map["Pair" := [Field("0", Plain(U32)), Field("1", Plain(Bool))]])
  {
    TupleStructDoesNotLoad(map["Pair" := [Field("0", Plain(U32)), Field("1", Plain(Bool))]], "Pair", 0);
  }

  /** The depth is no restriction: what is well typed at one depth is well typed at every greater one. */
  lemma {:induction false} MoreDepth(spec: Spec, n: nat, ty: Ty, v: Val)
    requires WellTyped(spec, n, ty, v)
    ensures WellTyped(spec, n + 1, ty, v)
    decreases n, ty
  {
    hide InRange, PyIdent, Hashable;
    match ty
    case Vec(elem) =>
      forall i | 0 <= i < |v.items| ensures WellTyped(spec, n + 1, elem, v.items[i]) {
        MoreDepth(spec, n, elem, v.items[i]);
      }
    case Opt(value) =>
      if v != PyNone {
        MoreDepth(spec, n, value, v);
      }
    case Map(key, value) =>
      forall i | 0 <= i < |v.pairs|
        ensures WellTyped(spec, n + 1, key, v.pairs[i].key) && WellTyped(spec, n + 1, value, v.pairs[i].val)
      {
        MoreDepth(spec, n, key, v.pairs[i].key);
        MoreDepth(spec, n, value, v.pairs[i].val);
      }
    case Res(ok) => MoreDepth(spec, n, ok, v);
    case Tup(parts) =>
      if parts != [] {
        forall i | 0 <= i < |parts| ensures WellTyped(spec, n + 1, parts[i], v.items[i]) {
          MoreDepth(spec, n, parts[i], v.items[i]);
        }
      }
    case Udt(name) =>
      forall i | 0 <= i < |v.fields| ensures WellTyped(spec, n, spec[name][i].ty, v.fields[i].val) {
        MoreDepth(spec, n - 1, spec[name][i].ty, v.fields[i].val);
      }
    case _ =>
  }

  // ---------- map keys ----------

  /** A decoded value at this type can be a dictionary key: no list, dictionary or object, also not inside a tuple. */
  predicate KeyOk(ty: Ty, v: Val) {
    match ty
    case Vec(_) => false
    case Map(_, _) => false
    case Udt(_) => false
    case Opt(value) => v == PyNone || KeyOk(value, v)
    case Res(ok) => KeyOk(ok, v)
    case Tup(parts) =>
      if |parts| == 1 then KeyOk(parts[0], v)
      else v.Tuple? && |v.items| == |parts| ==> forall i :: 0 <= i < |parts| ==> KeyOk(parts[i], v.items[i])
    case _ => true
  }

  /** Decoded values of these types always can. */
  predicate AlwaysKey(ty: Ty) {
    match ty
    case Vec(_) => false
    case Map(_, _) => false
    case Udt(_) => false
    case Opt(value) => AlwaysKey(value)
    case Res(ok) => AlwaysKey(ok)
    case Tup(parts) => forall i :: 0 <= i < |parts| ==> AlwaysKey(parts[i])
    case _ => true
  }

  /** And of these types never. What is left are options of them, which can exactly when they are None. */
  predicate NeverKey(ty: Ty) {
    match ty
    case Vec(_) => true
    case Map(_, _) => true
    case Udt(_) => true
    case Res(ok) => NeverKey(ok)
    case Tup(parts) => exists i :: 0 <= i < |parts| && NeverKey(parts[i])
    case _ => false
  }

  /** Python can hash a decoded value exactly when its type and its options say so. */
  lemma {:induction false} DecodedKeyHashable(spec: Spec, n: nat, ty: Ty, a: Option<Val>)
    requires WireOrRaised(a) && Decode(spec, n, ty, a).Some?
    ensures Hashable(Decode(spec, n, ty, a).value) <==> KeyOk(ty, Decode(spec, n, ty, a).value)
    decreases ty
  {
    hide InRange, PyIdent, Build, Zip;
    match ty
    case Opt(value) =>
      if a != Some(Sc(SvVoid)) {
        DecodedKeyHashable(spec, n, value, a);
      }
    case Res(ok) => DecodedKeyHashable(spec, n, ok, a);
    case Tup(parts) =>
      if parts != [] {
        var l := RunBuiltin(FromVec, a);
        var ds := DecodeTuple(spec, n, ty, l);
        forall i | 0 <= i < |parts|
          ensures Hashable(Collect(ds).value[i]) <==> KeyOk(parts[i], Collect(ds).value[i])
        {
          assert ds[i] == Decode(spec, n, parts[i], At(l, i));
          DecodedKeyHashable(spec, n, parts[i], At(l, i));
        }
      }
    case _ =>
  }

  lemma {:induction false} AlwaysKeyOk(ty: Ty, v: Val)
    requires AlwaysKey(ty)
    ensures KeyOk(ty, v)
    decreases ty
  {
    match ty
    case Opt(value) => AlwaysKeyOk(value, v);
    case Res(ok) => AlwaysKeyOk(ok, v);
    case Tup(parts) =>
      if |parts| == 1 {
        AlwaysKeyOk(parts[0], v);
      } else if v.Tuple? && |v.items| == |parts| {
        forall i | 0 <= i < |parts| ensures KeyOk(parts[i], v.items[i]) {
          AlwaysKeyOk(parts[i], v.items[i]);
        }
      }
    case _ =>
  }

  lemma {:induction false} NeverKeyOk(spec: Spec, n: nat, ty: Ty, a: Option<Val>)
    requires NeverKey(ty) && WireOrRaised(a) && Decode(spec, n, ty, a).Some?
    ensures !KeyOk(ty, Decode(spec, n, ty, a).value)
    decreases ty
  {
    hide InRange, PyIdent, Build, Zip;
    match ty
    case Res(ok) => NeverKeyOk(spec, n, ok, a);
    case Tup(parts) =>
      var i :| 0 <= i < |parts| && NeverKey(parts[i]);
      var l := RunBuiltin(FromVec, a);
      var ds := DecodeTuple(spec, n, ty, l);
      assert ds[i] == Decode(spec, n, parts[i], At(l, i));
      NeverKeyOk(spec, n, parts[i], At(l, i));
    case _ =>
  }

  /** A map decodes exactly when every key and every value does and every decoded key can be hashed. */
  lemma {:induction false} MapDecodes(spec: Spec, n: nat, key: Ty, value: Ty, a: Option<Val>)
    ensures Decode(spec, n, Map(key, value), a).Some? <==>
              && Items(RunBuiltin(FromMap, a)).Some?
              && var es := Items(RunBuiltin(FromMap, a)).value;
                 forall i :: 0 <= i < |es| ==>
                   && Decode(spec, n, value, Some(es[i].val)).Some?
                   && Decode(spec, n, key, Some(es[i].key)).Some?
                   && KeyOk(key, Decode(spec, n, key, Some(es[i].key)).value)
  {
    var items := Items(RunBuiltin(FromMap, a));
    if items.Some? {
      var es := items.value;
      DictIsWire(a);
      DecodeDictUnfold(spec, n, key, value, a, es);
      hide InRange, PyIdent, Decode, KeyOk, RunBuiltin, Build, Hashable;
      var (ks, vs) := (DecodeEach(spec, n, key, Keys(es)), DecodeEach(spec, n, value, Values(es)));
      forall i | 0 <= i < |es|
        ensures ks[i] == Decode(spec, n, key, Some(es[i].key)) && vs[i] == Decode(spec, n, value, Some(es[i].val))
        ensures ks[i].Some? ==> (Hashable(ks[i].value) <==> KeyOk(key, ks[i].value))
      {
        if ks[i].Some? {
          DecodedKeyHashable(spec, n, key, Some(Keys(es)[i]));
        }
      }
    }
  }

  /** So a map keyed by lists, maps or structs, or by results or tuples of them, decodes exactly when it is empty; */
  lemma {:induction false} UnhashableKeysRaise(spec: Spec, n: nat, key: Ty, value: Ty, a: Option<Val>)
    requires NeverKey(key)
    ensures Decode(spec, n, Map(key, value), a).Some? <==> RunBuiltin(FromMap, a) == Some(Dict([]))
  {
    MapDecodes(spec, n, key, value, a);
    var items := Items(RunBuiltin(FromMap, a));
    if items.Some? && items.value != [] {
      DictIsWire(a);
      var k := Some(Keys(items.value)[0]);
      hide Decode, KeyOk, NeverKey, RunBuiltin;
      if Decode(spec, n, key, k).Some? {
        NeverKeyOk(spec, n, key, k);
      }
    }
  }

  /** and one whose keys hold none of these, under no option either, exactly when all its keys and values do. */
  lemma {:induction false} HashableKeysDecode(spec: Spec, n: nat, key: Ty, value: Ty, a: Option<Val>)
    requires AlwaysKey(key)
    ensures Decode(spec, n, Map(key, value), a).Some? <==>
              && Items(RunBuiltin(FromMap, a)).Some?
              && var es := Items(RunBuiltin(FromMap, a)).value;
                 forall i :: 0 <= i < |es| ==>
                   Decode(spec, n, key, Some(es[i].key)).Some? && Decode(spec, n, value, Some(es[i].val)).Some?
  {
    MapDecodes(spec, n, key, value, a);
    hide Decode, KeyOk, AlwaysKey, RunBuiltin;
    var items := Items(RunBuiltin(FromMap, a));
    if items.Some? {
      var es := items.value;
      forall i | 0 <= i < |es| && Decode(spec, n, key, Some(es[i].key)).Some?
        ensures KeyOk(key, Decode(spec, n, key, Some(es[i].key)).value)
      {
        AlwaysKeyOk(key, Decode(spec, n, key, Some(es[i].key)).value);
      }
    }
  }

  // ---------- identifiers ----------

  lemma {:induction false} KeywordEndsInLetter(s: string)
    requires IsKeyword(s)
    ensures s != [] && s[|s| - 1] != '_'
  {
  }

  /** An escaped name is no keyword, and two names collide only if one is a keyword and the other its escape. */
  lemma {:induction false} IdentifiersCollide(a: string, b: string)
    ensures !IsKeyword(PyIdent(a))
    ensures PyIdent(a) == PyIdent(b)
            <==> a == b || (IsKeyword(a) && b == a + ['_']) || (IsKeyword(b) && a == b + ['_'])
  {
    hide IsKeyword;
    if IsKeyword(a + ['_']) {
      KeywordEndsInLetter(a + ['_']);
    }
    if IsKeyword(b + ['_']) {
      KeywordEndsInLetter(b + ['_']);
    }
    assert (a + ['_'])[..|a|] == a && (b + ['_'])[..|b|] == b;
  }
}
