/** What the generated codecs put on the wire, type by type, and under which names: the contract on the other side reads
    it knowing only the spec. */
module PyWire {
  import opened PyCodec
  import opened PyRuntime
  import opened Wrappers

  // ---------- scalars ----------

  /** The value on the wire, or an exception if the test fails. */
  function Checked(ok: bool, k: ScKind, d: int): Option<Val> {
    if ok then Some(Sc(SvScalar(k, d))) else None
  }

  /** Python integers become the integer kind that the spec names, if they fit. */
  lemma {:induction false} IntegersOnWire(spec: Spec, n: nat, d: int)
    ensures var v := Some(Prim(PyInt, d));
            && Encode(spec, n, Plain(U32), v) == Checked(0 <= d < 0x1_0000_0000, ScUint32, d)
            && Encode(spec, n, Plain(I32), v) == Checked(-0x8000_0000 <= d < 0x8000_0000, ScInt32, d)
            && Encode(spec, n, Plain(U64), v) == Checked(0 <= d < 0x1_0000_0000_0000_0000, ScUint64, d)
            && Encode(spec, n, Plain(I64), v)
               == Checked(-0x8000_0000_0000_0000 <= d < 0x8000_0000_0000_0000, ScInt64, d)
            && Encode(spec, n, Plain(Timepoint), v) == Checked(0 <= d < 0x1_0000_0000_0000_0000, ScTimepoint, d)
            && Encode(spec, n, Plain(Duration), v) == Checked(0 <= d < 0x1_0000_0000_0000_0000, ScDuration, d)
  {
    IntegerKinds();
    hide DecoderOf, EncoderOf;
  }

  lemma {:induction false} IntegerKinds()
    ensures EncoderOf(U32) == ScUint32 && EncoderOf(I32) == ScInt32
    ensures EncoderOf(U64) == ScUint64 && EncoderOf(I64) == ScInt64
    ensures EncoderOf(Timepoint) == ScTimepoint && EncoderOf(Duration) == ScDuration
  {
  }

  /** And so do the wide ones. */
  lemma {:induction false} WideIntegersOnWire(spec: Spec, n: nat, d: int)
    ensures var v := Some(Prim(PyInt, d));
            && Encode(spec, n, Plain(U128), v)
               == Checked(0 <= d < 0x1_0000_0000_0000_0000_0000_0000_0000_0000, ScUint128, d)
            && Encode(spec, n, Plain(I128), v)
               == Checked(-0x8000_0000_0000_0000_0000_0000_0000_0000 <= d
                          < 0x8000_0000_0000_0000_0000_0000_0000_0000, ScInt128, d)
            && Encode(spec, n, Plain(U256), v)
               == Checked(0 <= d < 0x1_0000_0000_0000_0000_0000_0000_0000_0000_0000_0000_0000_0000_0000_0000_0000_0000,
                          ScUint256, d)
            && Encode(spec, n, Plain(I256), v)
               == Checked(-0x8000_0000_0000_0000_0000_0000_0000_0000_0000_0000_0000_0000_0000_0000_0000_0000 <= d
                          < 0x8000_0000_0000_0000_0000_0000_0000_0000_0000_0000_0000_0000_0000_0000_0000_0000,
                          ScInt256, d)
  {
  }

  lemma {:induction false} PlainOnWire(spec: Spec, n: nat, s: Scalar, d: int)
    ensures Encode(spec, n, Plain(s), Some(Prim(NativeOf(EncoderOf(s)), d)))
         == Checked(InRange(EncoderOf(s), d), EncoderOf(s), d)
  {
    hide InRange, NativeOf, EncoderOf;
  }

  /** The other scalars; a muxed address is an address. */
  lemma {:induction false} OthersOnWire(spec: Spec, n: nat, d: int)
    ensures Encode(spec, n, Plain(Bool), Some(Prim(PyBool, d))) == Checked(true, ScBool, d)
    ensures Encode(spec, n, Plain(Bytes), Some(Prim(PyBytes, d))) == Checked(true, ScBytes, d)
    ensures Encode(spec, n, Plain(String), Some(Prim(PyBytes, d))) == Checked(true, ScString, d)
    ensures Encode(spec, n, Plain(Symbol), Some(Prim(PyStr, d))) == Checked(true, ScSymbol, d)
    ensures Encode(spec, n, Plain(Address), Some(Prim(PyAddress, d))) == Checked(true, ScAddress, d)
    ensures Encode(spec, n, Plain(MuxedAddress), Some(Prim(PyAddress, d))) == Checked(true, ScAddress, d)
  {
    hide Encode;
    PlainOnWire(spec, n, Bool, d);
    PlainOnWire(spec, n, Bytes, d);
    PlainOnWire(spec, n, String, d);
    PlainOnWire(spec, n, Symbol, d);
    PlainOnWire(spec, n, Address, d);
    PlainOnWire(spec, n, MuxedAddress, d);
  }

  /** Bytes of a fixed length go out as bytes; the type void sends void, whatever the value. */
  lemma {:induction false} FixedBytesOnWire(spec: Spec, n: nat, d: int, v: Val)
    ensures Encode(spec, n, BytesN, Some(Prim(PyBytes, d))) == Checked(true, ScBytes, d)
    ensures Encode(spec, n, Void, Some(v)) == Some(Sc(SvVoid))
  {
  }

  lemma {:induction false} PlainDecodes(spec: Spec, n: nat, s: Scalar, k: ScKind, d: int)
    ensures Decode(spec, n, Plain(s), Some(Sc(SvScalar(k, d)))) == if DecoderOf(s) == k then Some(Prim(NativeOf(k), d))
                                                                   else None
  {
    hide NativeOf, DecoderOf;
  }

  /** The same table read the other way: each kind on the wire decodes at its own types, and raises at all others. */
  lemma {:induction false} ScalarsDecode(spec: Spec, n: nat, s: Scalar, k: ScKind, d: int)
    ensures var v := Decode(spec, n, Plain(s), Some(Sc(SvScalar(k, d))));
            match k
            case ScBool => v == if s == Bool then Some(Prim(PyBool, d)) else None
            case ScUint32 => v == if s == U32 then Some(Prim(PyInt, d)) else None
            case ScInt32 => v == if s == I32 then Some(Prim(PyInt, d)) else None
            case ScUint64 => v == if s == U64 then Some(Prim(PyInt, d)) else None
            case ScInt64 => v == if s == I64 then Some(Prim(PyInt, d)) else None
            case ScUint128 => v == if s == U128 then Some(Prim(PyInt, d)) else None
            case ScInt128 => v == if s == I128 then Some(Prim(PyInt, d)) else None
            case ScUint256 => v == if s == U256 then Some(Prim(PyInt, d)) else None
            case ScInt256 => v == if s == I256 then Some(Prim(PyInt, d)) else None
            case ScTimepoint => v == if s == Timepoint then Some(Prim(PyInt, d)) else None
            case ScDuration => v == if s == Duration then Some(Prim(PyInt, d)) else None
            case ScBytes => v == if s == Bytes then Some(Prim(PyBytes, d)) else None
            case ScString => v == if s == String then Some(Prim(PyBytes, d)) else None
            case ScSymbol => v == if s == Symbol then Some(Prim(PyStr, d)) else None
            case ScAddress => v == if s == Address || s == MuxedAddress then Some(Prim(PyAddress, d)) else None
  {
    PlainDecodes(spec, n, s, k, d);
    hide Decode;
    match s
    case _ =>
  }

  // ---------- lists, tuples, maps, options ----------

  /** A list goes out element by element, in order, and so does any iterable of the same values. */
  lemma {:induction false} VecOnWire(spec: Spec, n: nat, elem: Ty, v: Val)
    requires Encode(spec, n, Vec(elem), Some(v)).Some?
    ensures v.List? || v.Tuple?
    ensures var w := Encode(spec, n, Vec(elem), Some(v)).value;
            && w.Sc? && w.sc.SvVec? && |w.sc.items| == |v.items|
            && forall i :: 0 <= i < |v.items| ==>
                 Encode(spec, n, elem, Some(v.items[i])) == Some(Sc(w.sc.items[i]))
  {
    var es := Collect(EncodeEach(spec, n, elem, v.items));
    assert Encode(spec, n, Vec(elem), Some(v)) == RunBuiltin(ToVec, MakeList(es));
    hide Encode;
    forall i | 0 <= i < |v.items|
      ensures Encode(spec, n, elem, Some(v.items[i])) == Some(es.value[i])
    {
      assert EncodeEach(spec, n, elem, v.items)[i] == Encode(spec, n, elem, Some(v.items[i]));
    }
  }

  /** A tuple goes out as a vector with one item per spec type, each element at its own type, in order. */
  lemma {:induction false} TupleOnWire(spec: Spec, n: nat, parts: seq<Ty>, v: Val)
    requires v.List? || v.Tuple?
    requires Encode(spec, n, Tup(parts), Some(v)).Some?
    ensures var w := Encode(spec, n, Tup(parts), Some(v)).value;
            && w.Sc? && w.sc.SvVec? && |w.sc.items| == |parts|
            && forall i :: 0 <= i < |parts| && i < |v.items| ==>
                 Encode(spec, n, parts[i], Some(v.items[i])) == Some(Sc(w.sc.items[i]))
  {
    var es := Collect(EncodeTuple(spec, n, Tup(parts), Some(v)));
    assert Encode(spec, n, Tup(parts), Some(v)) == RunBuiltin(ToVec, MakeList(es));
    hide Encode;
    forall i | 0 <= i < |parts| && i < |v.items|
      ensures Encode(spec, n, parts[i], Some(v.items[i])) == Some(es.value[i])
    {
      assert EncodeTuple(spec, n, Tup(parts), Some(v))[i] == Encode(spec, n, parts[i], At(Some(v), i));
    }
  }

  /** A dictionary goes out as a map, entry by entry, in its order, as long as no two keys encode alike. */
  lemma {:induction false} DictOnWire(spec: Spec, n: nat, key: Ty, value: Ty, es: seq<Entry<Val, Val>>)
    requires Encode(spec, n, Map(key, value), Some(Dict(es))).Some?
    requires forall i, j :: 0 <= i < j < |es| ==>
               Encode(spec, n, key, Some(es[i].key)) != Encode(spec, n, key, Some(es[j].key))
    ensures var w := Encode(spec, n, Map(key, value), Some(Dict(es))).value;
            && w.Sc? && w.sc.SvMap? && |w.sc.pairs| == |es|
            && forall i :: 0 <= i < |es| ==>
                 && Encode(spec, n, key, Some(es[i].key)) == Some(Sc(w.sc.pairs[i].key))
                 && Encode(spec, n, value, Some(es[i].val)) == Some(Sc(w.sc.pairs[i].val))
  {
    var ks := Collect(EncodeEach(spec, n, key, Keys(es)));
    var vs := Collect(EncodeEach(spec, n, value, Values(es)));
    DictUnfold(spec, n, key, value, es);
    hide Encode, Collect, Build, Hashable;
    var z := Zip(ks.value, vs.value);
    forall i | 0 <= i < |es|
      ensures Encode(spec, n, key, Some(es[i].key)) == Some(z[i].key)
      ensures Encode(spec, n, value, Some(es[i].val)) == Some(z[i].val)
    {
      assert EncodeEach(spec, n, key, Keys(es))[i] == Encode(spec, n, key, Some(es[i].key));
      assert EncodeEach(spec, n, value, Values(es))[i] == Encode(spec, n, value, Some(es[i].val));
    }
    BuildDistinct(z);
  }

  lemma {:induction false} DictUnfold(spec: Spec, n: nat, key: Ty, value: Ty, es: seq<Entry<Val, Val>>)
    ensures Encode(spec, n, Map(key, value), Some(Dict(es)))
         == RunBuiltin(ToMap, MakeDict(Collect(EncodeEach(spec, n, key, Keys(es))),
                                       Collect(EncodeEach(spec, n, value, Values(es)))))
  {
    hide RunBuiltin, MakeDict, Collect, EncodeEach;
  }

  /** None goes out as void, at the type of an option; any other value, and a result, as at the type inside. */
  lemma {:induction false} OptionOnWire(spec: Spec, n: nat, ty: Ty, v: Val)
    ensures Encode(spec, n, Opt(ty), Some(v)) == if v == PyNone then Some(Sc(SvVoid)) else Encode(spec, n, ty, Some(v))
    ensures Encode(spec, n, Res(ty), Some(v)) == Encode(spec, n, ty, Some(v))
  {
    EncodeUnfold(spec, n, ty, Some(v));
  }

  // ---------- names ----------

  /** The keywords of Python get an underscore, and no other name does. */
  lemma {:induction false} KeywordsEscaped(name: string)
    ensures PyIdent(name)
         == if name in {"False", "None", "True", "and", "as", "assert", "async", "await", "break", "class", "continue",
                        "def", "del", "elif", "else", "except", "finally", "for", "from", "global", "if", "import",
                        "in", "is", "lambda", "nonlocal", "not", "or", "pass", "raise", "return", "try", "while",
                        "with", "yield"}
            then name + "_" else name
  {
  }

  predicate IsNameStart(c: char) {
    65 <= c as int <= 90 || 97 <= c as int <= 122 || c == '_'
  }

  /** Names are an ASCII letter or an underscore, and then letters, digits and underscores; the two methods of a class
      are called `_decode` and `_encode`. */
  lemma {:induction false} NamesExactly(s: string)
    ensures IsIdentifier(s) <==>
              && s != "" && IsNameStart(s[0])
              && forall i :: 0 <= i < |s| ==> IsNameStart(s[i]) || 48 <= s[i] as int <= 57
    ensures IsMethodName(s) <==> s == "_decode" || s == "_encode"
  {
  }

  /** A field called `from`: the wire has a member `from`, the Python object an attribute `from_`, and each is made of
      the other. */
  lemma {:induction false} FieldCalledFrom(spec: Spec, n: nat, cls: string, ty: Ty, x: Val, w: ScVal)
    requires cls in spec && spec[cls] == [Field("from", ty)]
    requires Encode(spec, n, ty, Some(x)) == Some(Sc(w)) && Decode(spec, n, ty, Some(Sc(w))) == Some(x)
    ensures RunEncode(spec, n, Some(Obj(cls, [Entry("from_", x)]))) == Some(Sc(SvStruct([Entry("from", w)])))
    ensures RunDecode(spec, n, cls, Some(Sc(SvStruct([Entry("from", w)])))) == Some(Obj(cls, [Entry("from_", x)]))
  {
    FromIsEscaped();
    var v := Obj(cls, [Entry("from_", x)]);
    MethodIsSeen(v);
    hide Encode, Decode, Eval, PyIdent, IsKeyword, HidesEncode;
    var fields := spec[cls];
    EncodeFieldsIsScoped(spec, n, fields, Some(v));
    OneField(spec, n, fields, v, Sc(w));
    ItemsAreMembers(fields, Collect([Some(Sc(w))]));
    assert MakeStruct(fields, Some([Sc(w)])).value.sc.members == [Entry("from", w)];
    var s := Some(Sc(SvStruct([Entry("from", w)])));
    var f := FromStruct(s);
    assert f == Some(Record([Entry("from", Sc(w))])) by {
      assert f.value.members == [Entry("from", Sc(w))];
    }
    DecodeFieldsIsScoped(spec, n, fields, f);
    assert DecodeFields(spec, n, fields, f) == [Some(x)] by {
      assert Member(f, "from") == Some(Sc(w));
      assert DecodeFields(spec, n, fields, f)[0] == Decode(spec, n, ty, Member(f, "from"));
    }
    CallsOwnClass(cls, fields, Collect([Some(x)]));
    assert Collect([Some(x)]).value == [x];
    assert MakeObject(cls, fields, Some([x])).value.fields == [Entry("from_", x)];
  }

  lemma {:induction false} OneField(spec: Spec, n: nat, fields: seq<Field>, v: Val, w: Val)
    requires |fields| == 1 && PyIdent(fields[0].name) == "from_"
    requires v.Obj? && v.fields != [] && v.fields[0].key == "from_"
    requires Encode(spec, n, fields[0].ty, Some(v.fields[0].val)) == Some(w)
    ensures EncodeFields(spec, n, fields, Some(v)) == [Some(w)]
    ensures Collect([Some(w)]) == Some([w])
  {
    hide Encode, PyIdent;
    assert Attribute(Some(v), "from_") == Some(v.fields[0].val);
    assert EncodeFields(spec, n, fields, Some(v))[0] == Some(w);
    assert Collect([Some(w)]).value == [w];
  }

  lemma {:induction false} MethodIsSeen(v: Val)
    requires v.Obj? && |v.fields| == 1 && v.fields[0].key == "from_"
    ensures !HidesEncode(v)
  {
    assert v.fields[0].key != ENCODE by {
      assert |ENCODE| == 7;
    }
    assert Lookup(v.fields, ENCODE) == Lookup(v.fields[1..], ENCODE);
  }

  lemma FromIsEscaped()
    ensures PyIdent("from") == "from_"
  {
  }
}
