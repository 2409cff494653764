/** The generator of Python codecs: spec types are compiled to expressions that bind `_e`, `_k`, `_v` and `_t` anew at
    every nesting level. The emitted text is modelled as an expression with an evaluator over environments, and its
    meaning is compared with a decoder and an encoder that recurse over the type and have no variables at all. */
module PyCodec {
  import opened PyRuntime
  import opened Wrappers

  // ---------- spec types ----------

  datatype Scalar =
    | Bool | U32 | I32 | U64 | I64 | U128 | I128 | U256 | I256 | Timepoint | Duration | Bytes | String | Symbol
    | Address | MuxedAddress

  /** `Unknown`: a scalar name or a compound kind that the generator does not know. */
  datatype Ty =
    | Void
    | Plain(s: Scalar)
    | BytesN
    | Vec(elem: Ty)
    | Opt(value: Ty)
    | Map(key: Ty, value: Ty)
    | Res(ok: Ty)
    | Tup(parts: seq<Ty>)
    | Udt(name: string)
    | Unknown

  datatype Field = Field(name: string, ty: Ty)

  /** The structs of the contract. */
  type Spec = map<string, seq<Field>>

  // ---------- the emitted Python ----------

  /** `_e`, `_k`, `_v`, `_t`, `_f`, `self`, and any other variable. */
  datatype Name = NameE | NameK | NameV | NameT | NameF | Self | Variable(name: string)

  datatype Expr =
    | NoneE
    | ToVoid
    | Var(x: Name)
    | Call(f: Builtin, arg: Expr)
    | ListDisplay(items: seq<Expr>)
    | Parens(items: seq<Expr>)
    | ListComp(item: Expr, x: Name, over: Expr)                              // [item for x in over]
    | DictComp(k: Expr, v: Expr, kx: Name, vx: Name, over: Expr)             // {k: v for kx, vx in over.items()}
    | IfVoid(test: Expr, yes: Expr, no: Expr)                                // yes if test.type == SCV_VOID else no
    | IfNone(test: Expr, yes: Expr, no: Expr)                                // yes if test is None else no
    | Index(e: Expr, i: nat)
    | Key(e: Expr, key: string)
    | Attr(e: Expr, attr: string)
    | Apply(x: Name, body: Expr, arg: Expr)                                  // (lambda x: body)(arg)
    | CallDecode(cls: string, arg: Expr)                                     // cls._decode(arg)
    | CallEncode(arg: Expr)                                                  // arg._encode()

  predicate IsKeyword(s: string) {
    || s == "False" || s == "None" || s == "True" || s == "and" || s == "as" || s == "assert" || s == "async"
    || s == "await" || s == "break" || s == "class" || s == "continue" || s == "def" || s == "del" || s == "elif"
    || s == "else" || s == "except" || s == "finally" || s == "for" || s == "from" || s == "global" || s == "if"
    || s == "import" || s == "in" || s == "is" || s == "lambda" || s == "nonlocal" || s == "not" || s == "or"
    || s == "pass" || s == "raise" || s == "return" || s == "try" || s == "while" || s == "with" || s == "yield"
  }

  function PyIdent(name: string): string {
    if IsKeyword(name) then name + ['_'] else name
  }

  function DecoderOf(s: Scalar): ScKind {
    match s
    case Bool => ScBool
    case U32 => ScUint32
    case I32 => ScInt32
    case U64 => ScUint64
    case I64 => ScInt64
    case U128 => ScUint128
    case I128 => ScInt128
    case U256 => ScUint256
    case I256 => ScInt256
    case Timepoint => ScTimepoint
    case Duration => ScDuration
    case Bytes => ScBytes
    case String => ScString
    case Symbol => ScSymbol
    case Address => ScAddress
    case MuxedAddress => ScAddress
  }

  function EncoderOf(s: Scalar): ScKind {
    match s
    case Bool => ScBool
    case U32 => ScUint32
    case I32 => ScInt32
    case U64 => ScUint64
    case I64 => ScInt64
    case U128 => ScUint128
    case I128 => ScInt128
    case U256 => ScUint256
    case I256 => ScInt256
    case Timepoint => ScTimepoint
    case Duration => ScDuration
    case Bytes => ScBytes
    case String => ScString
    case Symbol => ScSymbol
    case Address => ScAddress
    case MuxedAddress => ScAddress
  }

  /** `decode_expr`: an expression that turns the wire value of `e` into a Python value. */
  function DecodeExpr(ty: Ty, e: Expr): Expr
    decreases ty
  {
    match ty
    case Void => Call(FromVoid, e)
    case Plain(s) => Call(From(DecoderOf(s)), e)
    case BytesN => Call(From(ScBytes), e)
    case Vec(elem) => ListComp(DecodeExpr(elem, Var(NameE)), NameE, Call(FromVec, e))
    case Opt(value) => IfVoid(e, NoneE, DecodeExpr(value, e))
    case Map(key, value) =>
      DictComp(DecodeExpr(key, Var(NameK)), DecodeExpr(value, Var(NameV)), NameK, NameV, Call(FromMap, e))
    case Res(ok) => DecodeExpr(ok, e)
    case Tup(parts) =>
      if parts == [] then NoneE
      else Apply(NameT, Parens(DecodeParts(ty)), Call(FromVec, e))
    case Udt(name) => CallDecode(name, e)
    case Unknown => e
  }

  function DecodeParts(ty: Ty): (r: seq<Expr>)
    requires ty.Tup?
    ensures |r| == |ty.parts|
    decreases ty, 0
  {
    seq(|ty.parts|, i requires 0 <= i < |ty.parts| => DecodeExpr(ty.parts[i], Index(Var(NameT), i)))
  }

  /** `encode_expr`: an expression that turns the Python value of `e` into a wire value. */
  function EncodeExpr(ty: Ty, e: Expr): Expr
    decreases ty
  {
    match ty
    case Void => ToVoid
    case Plain(s) => Call(To(EncoderOf(s)), e)
    case BytesN => Call(To(ScBytes), e)
    case Vec(elem) => Call(ToVec, ListComp(EncodeExpr(elem, Var(NameE)), NameE, e))
    case Opt(value) => IfNone(e, ToVoid, EncodeExpr(value, e))
    case Map(key, value) =>
      Call(ToMap, DictComp(EncodeExpr(key, Var(NameK)), EncodeExpr(value, Var(NameV)), NameK, NameV, e))
    case Res(ok) => EncodeExpr(ok, e)
    case Tup(_) => Call(ToVec, ListDisplay(EncodeParts(ty, e)))
    case Udt(_) => CallEncode(e)
    case Unknown => e
  }

  function EncodeParts(ty: Ty, e: Expr): (r: seq<Expr>)
    requires ty.Tup?
    ensures |r| == |ty.parts|
    decreases ty, 0
  {
    seq(|ty.parts|, i requires 0 <= i < |ty.parts| => EncodeExpr(ty.parts[i], Index(e, i)))
  }

  /** The attributes that the dataclass declares. */
  function ClassAttrs(fields: seq<Field>): (r: seq<string>)
    ensures |r| == |fields|
  {
    seq(|fields|, i requires 0 <= i < |fields| => PyIdent(fields[i].name))
  }

  /** The keyword arguments that `_decode` passes to the dataclass, `ident=expression`. */
  function DecodeArgs(fields: seq<Field>): (r: seq<Entry<string, Expr>>)
    ensures |r| == |fields|
  {
    seq(|fields|, i requires 0 <= i < |fields| =>
      Entry(PyIdent(fields[i].name), DecodeExpr(fields[i].ty, Key(Var(NameF), fields[i].name))))
  }

  /** The dictionary that `_encode` passes to `to_struct`, `"name": expression`. */
  function EncodeItems(fields: seq<Field>): (r: seq<Entry<string, Expr>>)
    ensures |r| == |fields|
  {
    seq(|fields|, i requires 0 <= i < |fields| =>
      Entry(fields[i].name, EncodeExpr(fields[i].ty, Attr(Var(Self), PyIdent(fields[i].name)))))
  }

  predicate IsLetter(c: char) {
    'a' <= c <= 'z' || 'A' <= c <= 'Z' || c == '_'
  }

  predicate IsIdentifierPart(c: char) {
    IsLetter(c) || '0' <= c <= '9'
  }

  predicate AllIdentifierParts(s: string) {
    forall i :: 0 <= i < |s| ==> IsIdentifierPart(s[i])
  }

  /** What Python reads as one name; a keyword is one too, but cannot be used as one. */
  predicate IsIdentifier(s: string) {
    s != "" && IsLetter(s[0]) && AllIdentifierParts(s)
  }

  /** The two methods of a struct class. */
  const DECODE: string := "_decode"
  const ENCODE: string := "_encode"

  /** A field of this name gets the method as its default value. */
  predicate IsMethodName(ident: string) {
    ident == DECODE || ident == ENCODE
  }

  /** The class of a struct can be defined: every field is a name, none is repeated as a keyword argument, and none
      without a default value follows one with a default value. */
  predicate ValidFields(fields: seq<Field>) {
    && (forall i :: 0 <= i < |fields| ==> IsIdentifier(PyIdent(fields[i].name)))
    && (forall i, j :: 0 <= i < j < |fields| ==> PyIdent(fields[i].name) != PyIdent(fields[j].name))
    && (forall i, j :: 0 <= i < j < |fields| && IsMethodName(PyIdent(fields[i].name)) ==>
          IsMethodName(PyIdent(fields[j].name)))
  }

  /** The name can be given to a class: `class {name}:` escapes nothing. */
  predicate ValidClass(name: string) {
    IsIdentifier(name) && !IsKeyword(name)
  }

  /** The struct classes of the generated module parse and can be defined; if one does not, the module does not load. */
  predicate Loads(spec: Spec) {
    forall name | name in spec :: ValidClass(name) && ValidFields(spec[name])
  }

  /** `render_struct`: the attributes of the class and the two bodies, field by field. */
  method RenderStruct(fields: seq<Field>)
    returns (attrs: seq<string>, args: seq<Entry<string, Expr>>, items: seq<Entry<string, Expr>>)
    ensures attrs == ClassAttrs(fields) && args == DecodeArgs(fields) && items == EncodeItems(fields)
  {
    attrs := [];
    for i := 0 to |fields|
      invariant attrs == ClassAttrs(fields)[..i]
    {
      attrs := attrs + [PyIdent(fields[i].name)];
    }
    args := [];
    for i := 0 to |fields|
      invariant args == DecodeArgs(fields)[..i]
    {
      var f := fields[i];
      args := args + [Entry(PyIdent(f.name), DecodeExpr(f.ty, Key(Var(NameF), f.name)))];
    }
    items := [];
    for i := 0 to |fields|
      invariant items == EncodeItems(fields)[..i]
    {
      var f := fields[i];
      items := items + [Entry(f.name, EncodeExpr(f.ty, Attr(Var(Self), PyIdent(f.name))))];
    }
  }

  // ---------- evaluation ----------

  type Env = map<Name, Val>

  /** The value of an expression, or None if it raises. `n` bounds the nesting of `_decode` and `_encode` calls, as
      Python's recursion limit does. The iterable of a comprehension and the argument of a lambda are evaluated
      outside the scope of the name they bind. */
  function Eval(spec: Spec, n: nat, e: Expr, env: Env): Option<Val>
    decreases n, 0, e, 1
  {
    match e
    case NoneE => Some(PyNone)
    case ToVoid => Some(Sc(SvVoid))
    case Var(x) => if x in env then Some(env[x]) else None
    case Call(f, arg) => RunBuiltin(f, Eval(spec, n, arg, env))
    case ListDisplay(_) => MakeList(Collect(EvalItems(spec, n, e, env)))
    case Parens(_) => Parenthesised(Collect(EvalItems(spec, n, e, env)))
    case ListComp(item, x, over) =>
      var xs := Iterate(Eval(spec, n, over, env));
      if xs.None? then None else MakeList(Collect(EvalOver(spec, n, item, x, xs.value, env)))
    case DictComp(k, v, kx, vx, over) =>
      var es := Items(Eval(spec, n, over, env));
      if es.None? then None
      else MakeDict(Collect(EvalPairs(spec, n, k, kx, vx, es.value, env)),
                    Collect(EvalPairs(spec, n, v, kx, vx, es.value, env)))
    case IfVoid(test, yes, no) =>
      var v := Eval(spec, n, test, env);
      if v.None? || !v.value.Sc? then None
      else if v == Some(Sc(SvVoid)) then Eval(spec, n, yes, env)
      else Eval(spec, n, no, env)
    case IfNone(test, yes, no) =>
      var v := Eval(spec, n, test, env);
      if v.None? then None
      else if v == Some(PyNone) then Eval(spec, n, yes, env)
      else Eval(spec, n, no, env)
    case Index(a, i) => At(Eval(spec, n, a, env), i)
    case Key(a, key) => Member(Eval(spec, n, a, env), key)
    case Attr(a, attr) => Attribute(Eval(spec, n, a, env), attr)
    case Apply(x, body, arg) =>
      var v := Eval(spec, n, arg, env);
      if v.None? then None else Eval(spec, n, body, env[x := v.value])
    case CallDecode(cls, arg) =>
      var v := Eval(spec, n, arg, env);
      if n == 0 then None else RunDecode(spec, n - 1, cls, v)
    case CallEncode(arg) =>
      var v := Eval(spec, n, arg, env);
      if n == 0 then None else RunEncode(spec, n - 1, v)
  }

  function EvalItems(spec: Spec, n: nat, e: Expr, env: Env): seq<Option<Val>>
    requires e.ListDisplay? || e.Parens?
    decreases n, 0, e, 0
  {
    seq(|e.items|, i requires 0 <= i < |e.items| => Eval(spec, n, e.items[i], env))
  }

  function EvalOver(spec: Spec, n: nat, item: Expr, x: Name, xs: seq<Val>, env: Env): seq<Option<Val>>
    decreases n, 0, item, 2
  {
    seq(|xs|, i requires 0 <= i < |xs| => Eval(spec, n, item, env[x := xs[i]]))
  }

  function EvalPairs(spec: Spec, n: nat, item: Expr, kx: Name, vx: Name, es: seq<Entry<Val, Val>>, env: Env):
    seq<Option<Val>>
    decreases n, 0, item, 2
  {
    seq(|es|, i requires 0 <= i < |es| => Eval(spec, n, item, env[kx := es[i].key][vx := es[i].val]))
  }

  /** The `_decode` that `render_struct` emits; only a struct has one. */
  function RunDecode(spec: Spec, n: nat, cls: string, a: Option<Val>): Option<Val>
    decreases n, 1
  {
    var f := FromStruct(a);
    if cls !in spec || f.None? then None
    else
      CallClass(cls, ClassAttrs(spec[cls]), EntryNames(DecodeArgs(spec[cls])),
                Collect(RunDecodeFields(spec, n, spec[cls], map[NameF := f.value])))
  }

  function RunDecodeFields(spec: Spec, n: nat, fields: seq<Field>, env: Env): seq<Option<Val>>
    decreases n, 0
  {
    seq(|fields|, i requires 0 <= i < |fields| =>
      Eval(spec, n, DecodeArgs(fields)[i].val, env))
  }

  /** The `_encode` that `render_struct` emits for the class of the value. */
  function RunEncode(spec: Spec, n: nat, a: Option<Val>): Option<Val>
    decreases n, 1
  {
    if a.None? || !a.value.Obj? || a.value.cls !in spec || HidesEncode(a.value) then None
    else
      ToStruct(EntryNames(EncodeItems(spec[a.value.cls])),
               Collect(RunEncodeFields(spec, n, spec[a.value.cls], map[Self := a.value])))
  }

  function RunEncodeFields(spec: Spec, n: nat, fields: seq<Field>, env: Env): seq<Option<Val>>
    decreases n, 0
  {
    seq(|fields|, i requires 0 <= i < |fields| =>
      Eval(spec, n, EncodeItems(fields)[i].val, env))
  }

  /** An attribute of the object hides its `_encode` method, and is no method itself. */
  predicate HidesEncode(v: Val)
    requires v.Obj?
  {
    Lookup(v.fields, ENCODE).Some?
  }

  /** `scval.from_struct` */
  function FromStruct(a: Option<Val>): Option<Val> {
    if a.None? || !a.value.Sc? || !a.value.sc.SvStruct? then None
    else
      var ms := a.value.sc.members;
      Some(Record(seq(|ms|, i requires 0 <= i < |ms| => Entry(ms[i].key, Sc(ms[i].val)))))
  }

  /** The names in the emitted `name=` or `"name":` list. */
  function EntryNames(es: seq<Entry<string, Expr>>): (r: seq<string>)
    ensures |r| == |es|
  {
    seq(|es|, i requires 0 <= i < |es| => es[i].key)
  }

  /** The call `cls(name=value, ...)` of a dataclass with the given attributes; any other names raise. */
  function CallClass(cls: string, attrs: seq<string>, names: seq<string>, vs: Option<seq<Val>>): Option<Val> {
    if vs.None? || names != attrs || |vs.value| != |names| then None
    else Some(Obj(cls, seq(|names|, i requires 0 <= i < |names| && i < |vs.value| => Entry(names[i], vs.value[i]))))
  }

  /** `scval.to_struct({"name": value, ...})` */
  function ToStruct(names: seq<string>, vs: Option<seq<Val>>): Option<Val> {
    if vs.None? || |vs.value| != |names| || !AllSc(vs.value) then None
    else
      var scs := Unwrap(vs.value);
      Some(Sc(SvStruct(seq(|names|, i requires 0 <= i < |names| && i < |scs| => Entry(names[i], scs[i])))))
  }

  // ---------- the codec without variables ----------

  /** The object of class `cls` with a value for each field, under the field's name as Python can write it. */
  function MakeObject(cls: string, fields: seq<Field>, vs: Option<seq<Val>>): Option<Val> {
    if vs.None? || |vs.value| != |fields| then None
    else Some(Obj(cls, seq(|fields|, i requires 0 <= i < |fields| && i < |vs.value| =>
                         Entry(PyIdent(fields[i].name), vs.value[i]))))
  }

  /** The wire struct with a value for each field, under the field's own name. */
  function MakeStruct(fields: seq<Field>, vs: Option<seq<Val>>): Option<Val> {
    if vs.None? || |vs.value| != |fields| || !AllSc(vs.value) then None
    else
      var scs := Unwrap(vs.value);
      Some(Sc(SvStruct(seq(|fields|, i requires 0 <= i < |fields| && i < |scs| => Entry(fields[i].name, scs[i])))))
  }

  /** Decode the argument at type `ty`. None is an exception, in the argument as in the result. */
  function Decode(spec: Spec, n: nat, ty: Ty, a: Option<Val>): Option<Val>
    decreases n, ty, 1
  {
    match ty
    case Void => RunBuiltin(FromVoid, a)
    case Plain(s) => RunBuiltin(From(DecoderOf(s)), a)
    case BytesN => RunBuiltin(From(ScBytes), a)
    case Vec(elem) =>
      var xs := Iterate(RunBuiltin(FromVec, a));
      if xs.None? then None else MakeList(Collect(DecodeEach(spec, n, elem, xs.value)))
    case Opt(value) =>
      if a.None? || !a.value.Sc? then None
      else if a == Some(Sc(SvVoid)) then Some(PyNone)
      else Decode(spec, n, value, a)
    case Map(key, value) =>
      var es := Items(RunBuiltin(FromMap, a));
      if es.None? then None
      else MakeDict(Collect(DecodeEach(spec, n, key, Keys(es.value))),
                    Collect(DecodeEach(spec, n, value, Values(es.value))))
    case Res(ok) => Decode(spec, n, ok, a)
    case Tup(parts) =>
      if parts == [] then Some(PyNone)
      else
        var l := RunBuiltin(FromVec, a);
        if l.None? then None else Parenthesised(Collect(DecodeTuple(spec, n, ty, l)))
    case Udt(name) =>
      var f := FromStruct(a);
      if n == 0 || name !in spec || f.None? then None
      else MakeObject(name, spec[name], Collect(DecodeFields(spec, n - 1, spec[name], f)))
    case Unknown => a
  }

  function DecodeEach(spec: Spec, n: nat, ty: Ty, xs: seq<Val>): seq<Option<Val>>
    decreases n, ty, 2
  {
    seq(|xs|, i requires 0 <= i < |xs| => Decode(spec, n, ty, Some(xs[i])))
  }

  function DecodeTuple(spec: Spec, n: nat, ty: Ty, l: Option<Val>): seq<Option<Val>>
    requires ty.Tup?
    decreases n, ty, 0
  {
    seq(|ty.parts|, i requires 0 <= i < |ty.parts| => Decode(spec, n, ty.parts[i], At(l, i)))
  }

  function DecodeFields(spec: Spec, n: nat, fields: seq<Field>, f: Option<Val>): seq<Option<Val>>
    decreases n
  {
    seq(|fields|, i requires 0 <= i < |fields| => Decode(spec, n, fields[i].ty, Member(f, fields[i].name)))
  }

  /** Encode the argument at type `ty`. */
  function Encode(spec: Spec, n: nat, ty: Ty, a: Option<Val>): Option<Val>
    decreases n, ty, 1
  {
    match ty
    case Void => Some(Sc(SvVoid))
    case Plain(s) => RunBuiltin(To(EncoderOf(s)), a)
    case BytesN => RunBuiltin(To(ScBytes), a)
    case Vec(elem) =>
      var xs := Iterate(a);
      if xs.None? then None else RunBuiltin(ToVec, MakeList(Collect(EncodeEach(spec, n, elem, xs.value))))
    case Opt(value) =>
      if a.None? then None else if a == Some(PyNone) then Some(Sc(SvVoid)) else Encode(spec, n, value, a)
    case Map(key, value) =>
      var es := Items(a);
      if es.None? then None
      else RunBuiltin(ToMap, MakeDict(Collect(EncodeEach(spec, n, key, Keys(es.value))),
                                      Collect(EncodeEach(spec, n, value, Values(es.value)))))
    case Res(ok) => Encode(spec, n, ok, a)
    case Tup(_) => RunBuiltin(ToVec, MakeList(Collect(EncodeTuple(spec, n, ty, a))))
    case Udt(_) =>
      if n == 0 || a.None? || !a.value.Obj? || a.value.cls !in spec || HidesEncode(a.value) then None
      else MakeStruct(spec[a.value.cls], Collect(EncodeFields(spec, n - 1, spec[a.value.cls], a)))
    case Unknown => a
  }

  function EncodeEach(spec: Spec, n: nat, ty: Ty, xs: seq<Val>): seq<Option<Val>>
    decreases n, ty, 2
  {
    seq(|xs|, i requires 0 <= i < |xs| => Encode(spec, n, ty, Some(xs[i])))
  }

  function EncodeTuple(spec: Spec, n: nat, ty: Ty, a: Option<Val>): seq<Option<Val>>
    requires ty.Tup?
    decreases n, ty, 0
  {
    seq(|ty.parts|, i requires 0 <= i < |ty.parts| => Encode(spec, n, ty.parts[i], At(a, i)))
  }

  function EncodeFields(spec: Spec, n: nat, fields: seq<Field>, a: Option<Val>): seq<Option<Val>>
    decreases n
  {
    seq(|fields|, i requires 0 <= i < |fields| => Encode(spec, n, fields[i].ty, Attribute(a, PyIdent(fields[i].name))))
  }

  // ---------- in the generated module ----------

  function ClientEval(spec: Spec, n: nat, e: Expr, env: Env): Option<Val> {
    if Loads(spec) then Eval(spec, n, e, env) else None
  }

  function ClientDecode(spec: Spec, n: nat, ty: Ty, a: Option<Val>): Option<Val> {
    if Loads(spec) then Decode(spec, n, ty, a) else None
  }

  function ClientEncode(spec: Spec, n: nat, ty: Ty, a: Option<Val>): Option<Val> {
    if Loads(spec) then Encode(spec, n, ty, a) else None
  }

  // ---------- the emitted expressions mean the codec ----------

  ghost predicate DecodeScopedAt(spec: Spec, n: nat, ty: Ty, e: Expr, env: Env) {
    Eval(spec, n, DecodeExpr(ty, e), env) == Decode(spec, n, ty, Eval(spec, n, e, env))
  }

  lemma {:induction false} DecodeLeaf(spec: Spec, n: nat, ty: Ty, e: Expr, env: Env)
    requires ty.Void? || ty.Plain? || ty.BytesN? || ty.Unknown?
    ensures DecodeScopedAt(spec, n, ty, e, env)
  {
    hide RunBuiltin, DecoderOf;
  }

  lemma {:induction false} EvalChoice(spec: Spec, n: nat, test: Expr, yes: Expr, no: Expr, env: Env)
    ensures var v := Eval(spec, n, test, env);
            && Eval(spec, n, IfVoid(test, yes, no), env)
               == (if v.None? || !v.value.Sc? then None
                   else if v == Some(Sc(SvVoid)) then Eval(spec, n, yes, env)
                   else Eval(spec, n, no, env))
            && Eval(spec, n, IfNone(test, yes, no), env)
               == (if v.None? then None
                   else if v == Some(PyNone) then Eval(spec, n, yes, env)
                   else Eval(spec, n, no, env))
  {
  }

  lemma {:induction false} EvalConstants(spec: Spec, n: nat, env: Env)
    ensures Eval(spec, n, NoneE, env) == Some(PyNone) && Eval(spec, n, ToVoid, env) == Some(Sc(SvVoid))
  {
  }

  lemma {:induction false} DecodeExprUnfold(ty: Ty, e: Expr)
    ensures DecodeExpr(Opt(ty), e) == IfVoid(e, NoneE, DecodeExpr(ty, e))
    ensures DecodeExpr(Res(ty), e) == DecodeExpr(ty, e)
  {
  }

  lemma {:induction false} DecodeUnfold(spec: Spec, n: nat, ty: Ty, a: Option<Val>)
    ensures Decode(spec, n, Res(ty), a) == Decode(spec, n, ty, a)
    ensures Decode(spec, n, Opt(ty), a)
         == if a.None? || !a.value.Sc? then None
            else if a == Some(Sc(SvVoid)) then Some(PyNone)
            else Decode(spec, n, ty, a)
  {
  }

  lemma {:induction false} DecodeWrapper(spec: Spec, n: nat, ty: Ty, e: Expr, env: Env)
    requires DecodeScopedAt(spec, n, ty, e, env)
    ensures DecodeScopedAt(spec, n, Opt(ty), e, env) && DecodeScopedAt(spec, n, Res(ty), e, env)
  {
    hide Eval, Decode, DecodeExpr;
    DecodeExprUnfold(ty, e);
    DecodeUnfold(spec, n, ty, Eval(spec, n, e, env));
    EvalChoice(spec, n, e, NoneE, DecodeExpr(ty, e), env);
    EvalConstants(spec, n, env);
  }

  lemma {:induction false} DecodeVec(spec: Spec, n: nat, elem: Ty, e: Expr, env: Env)
    requires forall xs :: EvalOver(spec, n, DecodeExpr(elem, Var(NameE)), NameE, xs, env)
                          == DecodeEach(spec, n, elem, xs)
    ensures DecodeScopedAt(spec, n, Vec(elem), e, env)
  {
    hide EvalOver, DecodeEach, Iterate, RunBuiltin, Collect, MakeList;
    var a := Eval(spec, n, e, env);
    assert Eval(spec, n, Call(FromVec, e), env) == RunBuiltin(FromVec, a);
    var xs := Iterate(RunBuiltin(FromVec, a));
    assert Eval(spec, n, ListComp(DecodeExpr(elem, Var(NameE)), NameE, Call(FromVec, e)), env)
        == if xs.None? then None
           else MakeList(Collect(EvalOver(spec, n, DecodeExpr(elem, Var(NameE)), NameE, xs.value, env)));
  }

  lemma {:induction false} DecodeMap(spec: Spec, n: nat, key: Ty, value: Ty, e: Expr, env: Env)
    requires forall es :: EvalPairs(spec, n, DecodeExpr(key, Var(NameK)), NameK, NameV, es, env)
                          == DecodeEach(spec, n, key, Keys(es))
    requires forall es :: EvalPairs(spec, n, DecodeExpr(value, Var(NameV)), NameK, NameV, es, env)
                          == DecodeEach(spec, n, value, Values(es))
    ensures DecodeScopedAt(spec, n, Map(key, value), e, env)
  {
    hide EvalPairs, DecodeEach, Items, RunBuiltin, Collect, MakeDict, Keys, Values;
    var a := Eval(spec, n, e, env);
    assert Eval(spec, n, Call(FromMap, e), env) == RunBuiltin(FromMap, a);
    var es := Items(RunBuiltin(FromMap, a));
    var (k, v) := (DecodeExpr(key, Var(NameK)), DecodeExpr(value, Var(NameV)));
    assert Eval(spec, n, DictComp(k, v, NameK, NameV, Call(FromMap, e)), env)
        == if es.None? then None
           else MakeDict(Collect(EvalPairs(spec, n, k, NameK, NameV, es.value, env)),
                         Collect(EvalPairs(spec, n, v, NameK, NameV, es.value, env)));
  }

  lemma {:induction false} DecodeTup(spec: Spec, n: nat, ty: Ty, e: Expr, env: Env)
    requires ty.Tup?
    requires forall l: Option<Val> :: l.Some? ==>
               EvalItems(spec, n, Parens(DecodeParts(ty)), env[NameT := l.value]) == DecodeTuple(spec, n, ty, l)
    ensures DecodeScopedAt(spec, n, ty, e, env)
  {
    hide EvalItems, DecodeTuple, DecodeParts, RunBuiltin, Collect, Parenthesised;
    var l := RunBuiltin(FromVec, Eval(spec, n, e, env));
    assert Eval(spec, n, NoneE, env) == Some(PyNone);
    assert Eval(spec, n, Call(FromVec, e), env) == l;
    if l.Some? {
      assert Eval(spec, n, Parens(DecodeParts(ty)), env[NameT := l.value])
          == Parenthesised(Collect(EvalItems(spec, n, Parens(DecodeParts(ty)), env[NameT := l.value])));
    }
  }

  /** The emitted constructor call names the attributes of the class: the fields' names as Python can write them. */
  lemma {:induction false} CallsOwnClass(cls: string, fields: seq<Field>, vs: Option<seq<Val>>)
    ensures CallClass(cls, ClassAttrs(fields), EntryNames(DecodeArgs(fields)), vs) == MakeObject(cls, fields, vs)
  {
    hide PyIdent, DecodeExpr;
    var called := CallClass(cls, ClassAttrs(fields), EntryNames(DecodeArgs(fields)), vs);
    assert ClassAttrs(fields) == EntryNames(DecodeArgs(fields));
    if called.Some? {
      assert called.value.fields == MakeObject(cls, fields, vs).value.fields;
    }
  }

  /** The emitted dictionary names the members of the wire struct: the fields' own names. */
  lemma {:induction false} ItemsAreMembers(fields: seq<Field>, vs: Option<seq<Val>>)
    ensures ToStruct(EntryNames(EncodeItems(fields)), vs) == MakeStruct(fields, vs)
  {
    hide PyIdent, EncodeExpr;
    var made := ToStruct(EntryNames(EncodeItems(fields)), vs);
    if made.Some? {
      assert made.value.sc.members == MakeStruct(fields, vs).value.sc.members;
    }
  }

  lemma {:induction false} DecodeUdt(spec: Spec, n: nat, name: string, e: Expr, env: Env)
    requires n > 0 && name in spec ==>
               forall f: Option<Val> :: f.Some? ==>
                 RunDecodeFields(spec, n - 1, spec[name], map[NameF := f.value])
                 == DecodeFields(spec, n - 1, spec[name], f)
    ensures DecodeScopedAt(spec, n, Udt(name), e, env)
  {
    hide RunDecodeFields, DecodeFields, FromStruct, Collect, MakeObject, CallClass, ClassAttrs, EntryNames, DecodeArgs;
    if n > 0 {
      var a := Eval(spec, n, e, env);
      assert Eval(spec, n, CallDecode(name, e), env) == RunDecode(spec, n - 1, name, a);
      var f := FromStruct(a);
      if f.Some? && name in spec {
        CallsOwnClass(name, spec[name], Collect(RunDecodeFields(spec, n - 1, spec[name], map[NameF := f.value])));
      }
    }
  }

  /** Scoping correctness of `decode_expr`: for every type, argument expression and environment, whatever names the
      argument uses. */
  lemma {:induction false} DecodeIsScoped(spec: Spec, n: nat, ty: Ty, e: Expr, env: Env)
    ensures Eval(spec, n, DecodeExpr(ty, e), env) == Decode(spec, n, ty, Eval(spec, n, e, env))
    decreases n, ty, 1
  {
    hide Eval, Decode, DecodeExpr;
    assert DecodeScopedAt(spec, n, ty, e, env) by {
      hide *;
      match ty
      case Void => DecodeLeaf(spec, n, ty, e, env);
      case Plain(_) => DecodeLeaf(spec, n, ty, e, env);
      case BytesN => DecodeLeaf(spec, n, ty, e, env);
      case Unknown => DecodeLeaf(spec, n, ty, e, env);
      case Res(ok) =>
        DecodeIsScopedAt(spec, n, ok, e, env);
        DecodeWrapper(spec, n, ok, e, env);
      case Opt(value) =>
        DecodeIsScopedAt(spec, n, value, e, env);
        DecodeWrapper(spec, n, value, e, env);
      case Vec(elem) =>
        forall xs
          ensures EvalOver(spec, n, DecodeExpr(elem, Var(NameE)), NameE, xs, env) == DecodeEach(spec, n, elem, xs)
        {
          DecodeEachIsScoped(spec, n, elem, xs, env);
        }
        DecodeVec(spec, n, elem, e, env);
      case Map(key, value) =>
        forall es
          ensures EvalPairs(spec, n, DecodeExpr(key, Var(NameK)), NameK, NameV, es, env)
               == DecodeEach(spec, n, key, Keys(es))
          ensures EvalPairs(spec, n, DecodeExpr(value, Var(NameV)), NameK, NameV, es, env)
               == DecodeEach(spec, n, value, Values(es))
        {
          DecodePairsIsScoped(spec, n, key, value, es, env);
        }
        DecodeMap(spec, n, key, value, e, env);
      case Tup(parts) =>
        forall l: Option<Val> | l.Some?
          ensures EvalItems(spec, n, Parens(DecodeParts(ty)), env[NameT := l.value]) == DecodeTuple(spec, n, ty, l)
        {
          DecodeTupleIsScoped(spec, n, ty, l, env);
        }
        DecodeTup(spec, n, ty, e, env);
      case Udt(name) =>
        if n > 0 && name in spec {
          forall f: Option<Val> | f.Some?
            ensures RunDecodeFields(spec, n - 1, spec[name], map[NameF := f.value])
                 == DecodeFields(spec, n - 1, spec[name], f)
          {
            DecodeFieldsIsScoped(spec, n - 1, spec[name], f);
          }
        }
        DecodeUdt(spec, n, name, e, env);
    }
  }

  lemma {:induction false} DecodeIsScopedAt(spec: Spec, n: nat, ty: Ty, e: Expr, env: Env)
    ensures DecodeScopedAt(spec, n, ty, e, env)
    decreases n, ty, 2
  {
    hide Eval, Decode, DecodeExpr;
    DecodeIsScoped(spec, n, ty, e, env);
  }

  lemma {:induction false} DecodeEachIsScoped(spec: Spec, n: nat, ty: Ty, xs: seq<Val>, env: Env)
    ensures EvalOver(spec, n, DecodeExpr(ty, Var(NameE)), NameE, xs, env) == DecodeEach(spec, n, ty, xs)
    decreases n, ty, 2
  {
    hide Decode, DecodeExpr;
    forall i | 0 <= i < |xs|
      ensures Eval(spec, n, DecodeExpr(ty, Var(NameE)), env[NameE := xs[i]]) == Decode(spec, n, ty, Some(xs[i]))
    {
      DecodeIsScoped(spec, n, ty, Var(NameE), env[NameE := xs[i]]);
    }
  }

  lemma {:induction false} DecodePairsIsScoped(spec: Spec, n: nat, key: Ty, value: Ty, es: seq<Entry<Val, Val>>,
                                               env: Env)
    ensures EvalPairs(spec, n, DecodeExpr(key, Var(NameK)), NameK, NameV, es, env)
         == DecodeEach(spec, n, key, Keys(es))
    ensures EvalPairs(spec, n, DecodeExpr(value, Var(NameV)), NameK, NameV, es, env)
         == DecodeEach(spec, n, value, Values(es))
    decreases n, Map(key, value), 0
  {
    hide Decode, DecodeExpr;
    forall i | 0 <= i < |es|
      ensures var inner := env[NameK := es[i].key][NameV := es[i].val];
              && Eval(spec, n, DecodeExpr(key, Var(NameK)), inner) == Decode(spec, n, key, Some(es[i].key))
              && Eval(spec, n, DecodeExpr(value, Var(NameV)), inner) == Decode(spec, n, value, Some(es[i].val))
    {
      var inner := env[NameK := es[i].key][NameV := es[i].val];
      DecodeIsScoped(spec, n, key, Var(NameK), inner);
      DecodeIsScoped(spec, n, value, Var(NameV), inner);
    }
  }

  lemma {:induction false} DecodeTupleIsScoped(spec: Spec, n: nat, ty: Ty, l: Option<Val>, env: Env)
    requires ty.Tup? && l.Some?
    ensures EvalItems(spec, n, Parens(DecodeParts(ty)), env[NameT := l.value]) == DecodeTuple(spec, n, ty, l)
    decreases n, ty, 0
  {
    hide Decode, DecodeExpr;
    var inner := env[NameT := l.value];
    forall i | 0 <= i < |ty.parts|
      ensures Eval(spec, n, DecodeParts(ty)[i], inner) == Decode(spec, n, ty.parts[i], At(l, i))
    {
      DecodeIsScoped(spec, n, ty.parts[i], Index(Var(NameT), i), inner);
    }
  }

  lemma {:induction false} DecodeFieldsIsScoped(spec: Spec, n: nat, fields: seq<Field>, f: Option<Val>)
    requires f.Some?
    ensures RunDecodeFields(spec, n, fields, map[NameF := f.value]) == DecodeFields(spec, n, fields, f)
    decreases n
  {
    hide Decode, DecodeExpr;
    var inner: Env := map[NameF := f.value];
    forall i | 0 <= i < |fields|
      ensures Eval(spec, n, DecodeExpr(fields[i].ty, Key(Var(NameF), fields[i].name)), inner)
           == Decode(spec, n, fields[i].ty, Member(f, fields[i].name))
    {
      DecodeIsScoped(spec, n, fields[i].ty, Key(Var(NameF), fields[i].name), inner);
    }
  }

  ghost predicate EncodeScopedAt(spec: Spec, n: nat, ty: Ty, e: Expr, env: Env) {
    Eval(spec, n, EncodeExpr(ty, e), env) == Encode(spec, n, ty, Eval(spec, n, e, env))
  }

  lemma {:induction false} EncodeLeaf(spec: Spec, n: nat, ty: Ty, e: Expr, env: Env)
    requires ty.Void? || ty.Plain? || ty.BytesN? || ty.Unknown?
    ensures EncodeScopedAt(spec, n, ty, e, env)
  {
    hide RunBuiltin, EncoderOf;
  }

  lemma {:induction false} EncodeExprUnfold(ty: Ty, e: Expr)
    ensures EncodeExpr(Opt(ty), e) == IfNone(e, ToVoid, EncodeExpr(ty, e))
    ensures EncodeExpr(Res(ty), e) == EncodeExpr(ty, e)
  {
  }

  lemma {:induction false} EncodeUnfold(spec: Spec, n: nat, ty: Ty, a: Option<Val>)
    ensures Encode(spec, n, Res(ty), a) == Encode(spec, n, ty, a)
    ensures Encode(spec, n, Opt(ty), a)
         == if a.None? then None else if a == Some(PyNone) then Some(Sc(SvVoid)) else Encode(spec, n, ty, a)
  {
  }

  lemma {:induction false} EncodeWrapper(spec: Spec, n: nat, ty: Ty, e: Expr, env: Env)
    requires EncodeScopedAt(spec, n, ty, e, env)
    ensures EncodeScopedAt(spec, n, Opt(ty), e, env) && EncodeScopedAt(spec, n, Res(ty), e, env)
  {
    hide Eval, Encode, EncodeExpr;
    EncodeExprUnfold(ty, e);
    EncodeUnfold(spec, n, ty, Eval(spec, n, e, env));
    EvalChoice(spec, n, e, ToVoid, EncodeExpr(ty, e), env);
    EvalConstants(spec, n, env);
  }

  lemma {:induction false} EncodeVec(spec: Spec, n: nat, elem: Ty, e: Expr, env: Env)
    requires forall xs :: EvalOver(spec, n, EncodeExpr(elem, Var(NameE)), NameE, xs, env)
                          == EncodeEach(spec, n, elem, xs)
    ensures EncodeScopedAt(spec, n, Vec(elem), e, env)
  {
    hide EvalOver, EncodeEach, Iterate, RunBuiltin, Collect, MakeList;
    var xs := Iterate(Eval(spec, n, e, env));
    var comp := ListComp(EncodeExpr(elem, Var(NameE)), NameE, e);
    assert Eval(spec, n, comp, env)
        == if xs.None? then None
           else MakeList(Collect(EvalOver(spec, n, EncodeExpr(elem, Var(NameE)), NameE, xs.value, env)));
    assert Eval(spec, n, Call(ToVec, comp), env) == RunBuiltin(ToVec, Eval(spec, n, comp, env));
    RaisedStays(ToVec);
  }

  lemma RaisedStays(f: Builtin)
    ensures RunBuiltin(f, None).None?
  {
  }

  lemma {:induction false} EncodeMap(spec: Spec, n: nat, key: Ty, value: Ty, e: Expr, env: Env)
    requires forall es :: EvalPairs(spec, n, EncodeExpr(key, Var(NameK)), NameK, NameV, es, env)
                          == EncodeEach(spec, n, key, Keys(es))
    requires forall es :: EvalPairs(spec, n, EncodeExpr(value, Var(NameV)), NameK, NameV, es, env)
                          == EncodeEach(spec, n, value, Values(es))
    ensures EncodeScopedAt(spec, n, Map(key, value), e, env)
  {
    hide EvalPairs, EncodeEach, Items, RunBuiltin, Collect, MakeDict, Keys, Values;
    var es := Items(Eval(spec, n, e, env));
    var (k, v) := (EncodeExpr(key, Var(NameK)), EncodeExpr(value, Var(NameV)));
    var comp := DictComp(k, v, NameK, NameV, e);
    assert Eval(spec, n, comp, env)
        == if es.None? then None
           else MakeDict(Collect(EvalPairs(spec, n, k, NameK, NameV, es.value, env)),
                         Collect(EvalPairs(spec, n, v, NameK, NameV, es.value, env)));
    assert Eval(spec, n, Call(ToMap, comp), env) == RunBuiltin(ToMap, Eval(spec, n, comp, env));
    RaisedStays(ToMap);
  }

  lemma {:induction false} EncodeTup(spec: Spec, n: nat, ty: Ty, e: Expr, env: Env)
    requires ty.Tup?
    requires EvalItems(spec, n, ListDisplay(EncodeParts(ty, e)), env)
          == EncodeTuple(spec, n, ty, Eval(spec, n, e, env))
    ensures EncodeScopedAt(spec, n, ty, e, env)
  {
    hide EvalItems, EncodeTuple, EncodeParts, RunBuiltin, Collect, MakeList;
    var items := ListDisplay(EncodeParts(ty, e));
    assert Eval(spec, n, items, env) == MakeList(Collect(EvalItems(spec, n, items, env)));
    assert Eval(spec, n, Call(ToVec, items), env) == RunBuiltin(ToVec, Eval(spec, n, items, env));
  }

  lemma {:induction false} EncodeUdt(spec: Spec, n: nat, name: string, e: Expr, env: Env)
    requires var a := Eval(spec, n, e, env);
             n > 0 && a.Some? && a.value.Obj? && a.value.cls in spec ==>
               RunEncodeFields(spec, n - 1, spec[a.value.cls], map[Self := a.value])
               == EncodeFields(spec, n - 1, spec[a.value.cls], a)
    ensures EncodeScopedAt(spec, n, Udt(name), e, env)
  {
    hide RunEncodeFields, EncodeFields, Collect, MakeStruct, ToStruct, EntryNames, EncodeItems;
    if n > 0 {
      var a := Eval(spec, n, e, env);
      if a.Some? && a.value.Obj? && a.value.cls in spec {
        var fields := spec[a.value.cls];
        ItemsAreMembers(fields, Collect(RunEncodeFields(spec, n - 1, fields, map[Self := a.value])));
      }
      assert Eval(spec, n, CallEncode(e), env) == RunEncode(spec, n - 1, a);
    }
  }

  /** Scoping correctness of `encode_expr`. */
  lemma {:induction false} EncodeIsScoped(spec: Spec, n: nat, ty: Ty, e: Expr, env: Env)
    ensures Eval(spec, n, EncodeExpr(ty, e), env) == Encode(spec, n, ty, Eval(spec, n, e, env))
    decreases n, ty, 1
  {
    hide Eval, Encode, EncodeExpr;
    assert EncodeScopedAt(spec, n, ty, e, env) by {
      hide *;
      match ty
      case Void => EncodeLeaf(spec, n, ty, e, env);
      case Plain(_) => EncodeLeaf(spec, n, ty, e, env);
      case BytesN => EncodeLeaf(spec, n, ty, e, env);
      case Unknown => EncodeLeaf(spec, n, ty, e, env);
      case Res(ok) =>
        EncodeIsScopedAt(spec, n, ok, e, env);
        EncodeWrapper(spec, n, ok, e, env);
      case Opt(value) =>
        EncodeIsScopedAt(spec, n, value, e, env);
        EncodeWrapper(spec, n, value, e, env);
      case Vec(elem) =>
        forall xs
          ensures EvalOver(spec, n, EncodeExpr(elem, Var(NameE)), NameE, xs, env) == EncodeEach(spec, n, elem, xs)
        {
          EncodeEachIsScoped(spec, n, elem, xs, env);
        }
        EncodeVec(spec, n, elem, e, env);
      case Map(key, value) =>
        forall es
          ensures EvalPairs(spec, n, EncodeExpr(key, Var(NameK)), NameK, NameV, es, env)
               == EncodeEach(spec, n, key, Keys(es))
          ensures EvalPairs(spec, n, EncodeExpr(value, Var(NameV)), NameK, NameV, es, env)
               == EncodeEach(spec, n, value, Values(es))
        {
          EncodePairsIsScoped(spec, n, key, value, es, env);
        }
        EncodeMap(spec, n, key, value, e, env);
      case Tup(_) =>
        EncodeTupleIsScoped(spec, n, ty, e, env);
        EncodeTup(spec, n, ty, e, env);
      case Udt(name) =>
        var a := Eval(spec, n, e, env);
        if n > 0 && a.Some? && a.value.Obj? && a.value.cls in spec {
          EncodeFieldsIsScoped(spec, n - 1, spec[a.value.cls], a);
        }
        EncodeUdt(spec, n, name, e, env);
    }
  }

  lemma {:induction false} EncodeIsScopedAt(spec: Spec, n: nat, ty: Ty, e: Expr, env: Env)
    ensures EncodeScopedAt(spec, n, ty, e, env)
    decreases n, ty, 2
  {
    hide Eval, Encode, EncodeExpr;
    EncodeIsScoped(spec, n, ty, e, env);
  }

  lemma {:induction false} EncodeEachIsScoped(spec: Spec, n: nat, ty: Ty, xs: seq<Val>, env: Env)
    ensures EvalOver(spec, n, EncodeExpr(ty, Var(NameE)), NameE, xs, env) == EncodeEach(spec, n, ty, xs)
    decreases n, ty, 2
  {
    hide Encode, EncodeExpr;
    forall i | 0 <= i < |xs|
      ensures Eval(spec, n, EncodeExpr(ty, Var(NameE)), env[NameE := xs[i]]) == Encode(spec, n, ty, Some(xs[i]))
    {
      EncodeIsScoped(spec, n, ty, Var(NameE), env[NameE := xs[i]]);
    }
  }

  lemma {:induction false} EncodePairsIsScoped(spec: Spec, n: nat, key: Ty, value: Ty, es: seq<Entry<Val, Val>>,
                                               env: Env)
    ensures EvalPairs(spec, n, EncodeExpr(key, Var(NameK)), NameK, NameV, es, env)
         == EncodeEach(spec, n, key, Keys(es))
    ensures EvalPairs(spec, n, EncodeExpr(value, Var(NameV)), NameK, NameV, es, env)
         == EncodeEach(spec, n, value, Values(es))
    decreases n, Map(key, value), 0
  {
    hide Encode, EncodeExpr;
    forall i | 0 <= i < |es|
      ensures var inner := env[NameK := es[i].key][NameV := es[i].val];
              && Eval(spec, n, EncodeExpr(key, Var(NameK)), inner) == Encode(spec, n, key, Some(es[i].key))
              && Eval(spec, n, EncodeExpr(value, Var(NameV)), inner) == Encode(spec, n, value, Some(es[i].val))
    {
      var inner := env[NameK := es[i].key][NameV := es[i].val];
      EncodeIsScoped(spec, n, key, Var(NameK), inner);
      EncodeIsScoped(spec, n, value, Var(NameV), inner);
    }
  }

  lemma {:induction false} EncodeTupleIsScoped(spec: Spec, n: nat, ty: Ty, e: Expr, env: Env)
    requires ty.Tup?
    ensures EvalItems(spec, n, ListDisplay(EncodeParts(ty, e)), env)
         == EncodeTuple(spec, n, ty, Eval(spec, n, e, env))
    decreases n, ty, 0
  {
    hide Encode, EncodeExpr;
    forall i | 0 <= i < |ty.parts|
      ensures Eval(spec, n, EncodeParts(ty, e)[i], env) == Encode(spec, n, ty.parts[i], At(Eval(spec, n, e, env), i))
    {
      EncodeIsScoped(spec, n, ty.parts[i], Index(e, i), env);
    }
  }

  lemma {:induction false} EncodeFieldsIsScoped(spec: Spec, n: nat, fields: seq<Field>, a: Option<Val>)
    requires a.Some?
    ensures RunEncodeFields(spec, n, fields, map[Self := a.value]) == EncodeFields(spec, n, fields, a)
    decreases n
  {
    hide Encode, EncodeExpr;
    var inner: Env := map[Self := a.value];
    forall i | 0 <= i < |fields|
      ensures Eval(spec, n, EncodeExpr(fields[i].ty, Attr(Var(Self), PyIdent(fields[i].name))), inner)
           == Encode(spec, n, fields[i].ty, Attribute(a, PyIdent(fields[i].name)))
    {
      EncodeIsScoped(spec, n, fields[i].ty, Attr(Var(Self), PyIdent(fields[i].name)), inner);
    }
  }

  // ---------- the names in the emitted methods ----------

  /** What the emitted `_decode` returns: an object of its class whose attributes are the spec's fields in order, each
      under its name, a keyword with an underscore behind it, and decoded from the member of exactly that name. */
  lemma {:induction false} DecodeMethod(spec: Spec, n: nat, cls: string, a: Option<Val>)
    requires RunDecode(spec, n, cls, a).Some?
    ensures cls in spec && FromStruct(a).Some?
    ensures var v := RunDecode(spec, n, cls, a).value;
            && v.Obj? && v.cls == cls && |v.fields| == |spec[cls]|
            && forall i :: 0 <= i < |v.fields| ==>
                 var name := spec[cls][i].name;
                 && v.fields[i].key == (if IsKeyword(name) then name + "_" else name)
                 && Decode(spec, n, spec[cls][i].ty, Member(FromStruct(a), name)) == Some(v.fields[i].val)
  {
    var f := FromStruct(a);
    var fields := spec[cls];
    var vs := Collect(RunDecodeFields(spec, n, fields, map[NameF := f.value]));
    DecodeFieldsIsScoped(spec, n, fields, f);
    CallsOwnClass(cls, fields, vs);
    hide Decode, Eval, FromStruct, IsKeyword, Collect, RunDecodeFields, CallClass;
    assert DecodeFields(spec, n, fields, f) == RunDecodeFields(spec, n, fields, map[NameF := f.value]);
  }

  /** What the emitted `_encode` returns: a wire struct whose members are the spec's fields in order, each under its own
      name, keyword or not, and encoded from the attribute of the escaped name. */
  lemma {:induction false} EncodeMethod(spec: Spec, n: nat, v: Val)
    requires RunEncode(spec, n, Some(v)).Some?
    ensures v.Obj? && v.cls in spec
    ensures var w := RunEncode(spec, n, Some(v)).value;
            && w.Sc? && w.sc.SvStruct? && |w.sc.members| == |spec[v.cls]|
            && forall i :: 0 <= i < |spec[v.cls]| ==>
                 var name := spec[v.cls][i].name;
                 && w.sc.members[i].key == name
                 && Encode(spec, n, spec[v.cls][i].ty, Attribute(Some(v), if IsKeyword(name) then name + "_" else name))
                    == Some(Sc(w.sc.members[i].val))
  {
    var fields := spec[v.cls];
    var vs := Collect(RunEncodeFields(spec, n, fields, map[Self := v]));
    EncodeFieldsIsScoped(spec, n, fields, Some(v));
    ItemsAreMembers(fields, vs);
    hide Encode, Eval, IsKeyword, Collect, RunEncodeFields, ToStruct, Attribute, HidesEncode;
    assert EncodeFields(spec, n, fields, Some(v)) == RunEncodeFields(spec, n, fields, map[Self := v]);
  }
}
