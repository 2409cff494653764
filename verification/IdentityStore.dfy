/** The identity store: the operations that mutate it, and what holds over every run of them. Keys are opaque; the
    outcome of deriving a key pair is an input of the operation. */
module IdentityStore {
  import Text
  import opened StoreErrors
  import opened Wrappers

  datatype Identity = Identity(publicKey: string, secretKey: string, fundedOn: seq<string>)

  /** What the store file holds. */
  datatype Store = Store(identities: map<string, Identity>, default: Option<string>)

  const EMPTY := Store(map[], None)

  // ---------- the operations on store values ----------

  datatype Op =
    | Generate(name: string, force: bool, derived: Result<(string, string)>)
    | Import(name: string, force: bool, secret: string, publicKey: Result<string>)
    | Remove(name: string)
    | Use(name: string)
    | Fund(name: string, network: string)

  /** `secret` is as given on the command line and `publicKey` what it derives to; the store holds the trimmed secret.
      The store after `op`, or None when the operation is rejected. */
  function Apply(s: Store, op: Op): Option<Store> {
    match op
    case Generate(name, force, derived) =>
      if (name in s.identities && !force) || derived.Err? then None
      else Some(s.(identities := s.identities[name := Identity(derived.value.0, derived.value.1, [])]))
    case Import(name, force, secret, publicKey) =>
      if (name in s.identities && !force) || publicKey.Err? then None
      else Some(s.(identities := s.identities[name := Identity(publicKey.value, Text.Trim(secret), [])]))
    case Remove(name) =>
      if name !in s.identities then None
      else Some(Store(s.identities - {name}, if s.default == Some(name) then None else s.default))
    case Use(name) =>
      if name !in s.identities then None else Some(s.(default := Some(name)))
    case Fund(name, network) =>
      if name !in s.identities || network in s.identities[name].fundedOn then Some(s)
      else
        var id := s.identities[name];
        Some(s.(identities := s.identities[name := id.(fundedOn := id.fundedOn + [network])]))
  }

  ghost predicate SameEntry(s: Store, t: Store, n: string) {
    (n in s.identities <==> n in t.identities) && (n in s.identities ==> s.identities[n] == t.identities[n])
  }

  /** What `generate` and `import` do, field by field. */
  lemma {:induction false} NewIdentity(s: Store, op: Op)
    requires op.Generate? || op.Import?
    ensures var t := Apply(s, op);
            && (t.Some? <==> (op.name in s.identities ==> op.force)
                             && (if op.Generate? then op.derived.Ok? else op.publicKey.Ok?))
            && (t.Some? ==>
                  && op.name in t.value.identities
                  && var id := t.value.identities[op.name];
                     && id.publicKey == (if op.Generate? then op.derived.value.0 else op.publicKey.value)
                     && id.secretKey == (if op.Generate? then op.derived.value.1 else Text.Trim(op.secret))
                     && id.fundedOn == []
                     && t.value.default == s.default
                     && forall n :: n != op.name ==> SameEntry(s, t.value, n))
  {
  }

  // ---------- the store that the closures mutate ----------

  class IdentityStore {
    var identities: map<string, Identity>
    var default: Option<string>

    function View(): Store
      reads this
    {
      Store(identities, default)
    }

    constructor (s: Store)
      ensures View() == s
    {
      identities, default := s.identities, s.default;
    }

    /** The mutation of `generate_identity_with`. */
    method Generate(name: string, force: bool, derived: Result<(string, string)>) returns (r: Result<Identity>)
      modifies this
      ensures var after := Apply(old(View()), Op.Generate(name, force, derived));
              if after.None? then r.Err? && View() == old(View())
              else View() == after.value && r == Ok(identities[name])
      ensures r.Ok? <==> (name in old(identities) ==> force) && derived.Ok?
      ensures r.Ok? ==>
                && name in identities && identities[name] == r.value && default == old(default)
                && r.value.publicKey == derived.value.0 && r.value.secretKey == derived.value.1
                && r.value.fundedOn == []
                && forall n :: n != name ==> SameEntry(old(View()), View(), n)
      ensures r == Err(AlreadyExists) <== name in old(identities) && !force
    {
      if name in identities && !force {
        return Err(AlreadyExists);
      }
      if derived.Err? {
        return Err(derived.error);
      }
      var identity := Identity(derived.value.0, derived.value.1, []);
      identities := identities[name := identity];
      r := Ok(identity);
    }

    /** `import_identity` */
    method Import(name: string, force: bool, secret: string, publicKey: Result<string>) returns (r: Result<Identity>)
      modifies this
      ensures var after := Apply(old(View()), Op.Import(name, force, secret, publicKey));
              if after.None? then r.Err? && View() == old(View())
              else View() == after.value && r == Ok(identities[name])
      ensures r.Ok? <==> (name in old(identities) ==> force) && publicKey.Ok?
      ensures r.Ok? ==>
                && name in identities && identities[name] == r.value && default == old(default)
                && r.value.publicKey == publicKey.value && r.value.secretKey == Text.Trim(secret)
                && r.value.fundedOn == []
                && forall n :: n != name ==> SameEntry(old(View()), View(), n)
      ensures r == Err(AlreadyExists) <== name in old(identities) && !force
    {
      if name in identities && !force {
        return Err(AlreadyExists);
      }
      if publicKey.Err? {
        return Err(publicKey.error);
      }
      var identity := Identity(publicKey.value, Text.Trim(secret), []);
      identities := identities[name := identity];
      r := Ok(identity);
    }

    /** The mutation of `remove_identity`. */
    method Remove(name: string) returns (r: Result<()>)
      modifies this
      ensures var after := Apply(old(View()), Op.Remove(name));
              View() == (if after.None? then old(View()) else after.value) && (r.Ok? <==> after.Some?)
      ensures r.Ok? <==> name in old(identities)
      ensures name !in identities && default == (if old(default) == Some(name) && r.Ok? then None else old(default))
      ensures forall n :: n != name ==> SameEntry(old(View()), View(), n)
    {
      if name !in identities {
        return Err(InvalidArgument);
      }
      identities := identities - {name};
      if default == Some(name) {
        default := None;
      }
      r := Ok(());
    }

    /** The mutation of `identity use`. */
    method Use(name: string) returns (r: Result<()>)
      modifies this
      ensures var after := Apply(old(View()), Op.Use(name));
              View() == (if after.None? then old(View()) else after.value) && (r.Ok? <==> after.Some?)
      ensures r.Ok? <==> name in old(identities)
      ensures identities == old(identities) && default == (if r.Ok? then Some(name) else old(default))
    {
      if name !in identities {
        return Err(InvalidArgument);
      }
      default := Some(name);
      r := Ok(());
    }

    /** The write-back of `identity fund`: the identity may be gone by now, which is not an error. */
    method Fund(name: string, network: string)
      modifies this
      ensures Some(View()) == Apply(old(View()), Op.Fund(name, network))
      ensures default == old(default) && identities.Keys == old(identities).Keys
      ensures name in old(identities) ==>
                && network in identities[name].fundedOn
                && identities[name].publicKey == old(identities)[name].publicKey
                && identities[name].secretKey == old(identities)[name].secretKey
                && old(identities)[name].fundedOn <= identities[name].fundedOn
                && |identities[name].fundedOn| <= |old(identities)[name].fundedOn| + 1
      ensures forall n :: n != name ==> SameEntry(old(View()), View(), n)
    {
      if name in identities {
        var id := identities[name];
        if network !in id.fundedOn {
          identities := identities[name := id.(fundedOn := id.fundedOn + [network])];
        }
      }
    }
  }

  // ---------- every run ----------

  /** The store after a run; a rejected operation leaves it as it was. */
  function RunFrom(s: Store, ops: seq<Op>): Store {
    if ops == [] then s
    else
      var before := RunFrom(s, ops[..|ops| - 1]);
      var after := Apply(before, ops[|ops| - 1]);
      if after.None? then before else after.value
  }

  ghost predicate NoDuplicates(xs: seq<string>) {
    forall i, j :: 0 <= i < j < |xs| ==> xs[i] != xs[j]
  }

  /** The default names a stored identity, and no identity lists a network twice. */
  ghost predicate Sound(s: Store) {
    && (s.default.Some? ==> s.default.value in s.identities)
    && (forall n :: n in s.identities ==> NoDuplicates(s.identities[n].fundedOn))
  }

  lemma {:induction false} ApplyKeepsSound(s: Store, op: Op)
    requires Sound(s) && Apply(s, op).Some?
    ensures Sound(Apply(s, op).value)
  {
    var t := Apply(s, op).value;
    forall n | n in t.identities
      ensures NoDuplicates(t.identities[n].fundedOn)
    {
      if n in s.identities && t.identities[n] == s.identities[n] {
        assert NoDuplicates(s.identities[n].fundedOn);
      } else if op.Fund? {
        assert NoDuplicates(s.identities[n].fundedOn);
      }
    }
  }

  /** Every run from a sound store, in particular from the empty one, ends in a sound store. */
  lemma {:induction false} RunsAreSound(s: Store, ops: seq<Op>)
    requires Sound(s)
    ensures Sound(EMPTY)
    ensures Sound(RunFrom(s, ops))
    decreases |ops|
  {
    if ops != [] {
      RunsAreSound(s, ops[..|ops| - 1]);
      var before := RunFrom(s, ops[..|ops| - 1]);
      if Apply(before, ops[|ops| - 1]).Some? {
        ApplyKeepsSound(before, ops[|ops| - 1]);
      }
    }
  }

  // ---------- what one operation leaves alone ----------

  /** No operation touches an identity with another name. */
  lemma {:induction false} OtherNamesUntouched(s: Store, op: Op, n: string)
    requires Apply(s, op).Some? && n != op.name
    ensures var t := Apply(s, op).value;
            (n in t.identities <==> n in s.identities) && (n in s.identities ==> t.identities[n] == s.identities[n])
  {
  }

  /** Removing undoes generating a new name. */
  lemma {:induction false} RemoveUndoesGenerate(s: Store, name: string, force: bool, keys: (string, string))
    requires Sound(s) && name !in s.identities
    ensures var t := Apply(s, Generate(name, force, Ok(keys)));
            t.Some? && Apply(t.value, Remove(name)) == Some(s)
  {
    var t := Apply(s, Generate(name, force, Ok(keys))).value;
    assert t.identities - {name} == s.identities;
  }

  /** One operation and then another; None if either is rejected. */
  function Both(s: Store, a: Op, b: Op): Option<Store> {
    var t := Apply(s, a);
    if t.None? then None else Apply(t.value, b)
  }

  /** An operation sees only the entry it names. */
  lemma {:induction false} OnlyOwnEntryMatters(s: Store, t: Store, op: Op)
    requires SameEntry(s, t, op.name)
    ensures Apply(s, op).Some? <==> Apply(t, op).Some?
    ensures Apply(s, op).Some? ==> SameEntry(Apply(s, op).value, Apply(t, op).value, op.name)
  {
  }

  /** What an operation does to the default does not depend on the identities. */
  function DefaultAfter(d: Option<string>, op: Op): Option<string> {
    match op
    case Remove(name) => if d == Some(name) then None else d
    case Use(name) => Some(name)
    case _ => d
  }

  lemma {:induction false} ApplyDefault(s: Store, op: Op)
    requires Apply(s, op).Some?
    ensures Apply(s, op).value.default == DefaultAfter(s.default, op)
  {
  }

  /** Operations on different names commute, whatever the order in which parallel commands obtain the lock; the one
      exception is two accepted `use` commands, where the last decides. */
  lemma {:induction false} DifferentNamesCommute(s: Store, a: Op, b: Op)
    requires a.name != b.name
    ensures Both(s, a, b) == Both(s, b, a)
       <==> !(a.Use? && b.Use? && a.name in s.identities && b.name in s.identities)
  {
    hide Apply;
    var (sa, sb) := (Apply(s, a), Apply(s, b));
    if sa.Some? {
      OtherNamesUntouched(s, a, b.name);
      OnlyOwnEntryMatters(s, sa.value, b);
    }
    if sb.Some? {
      OtherNamesUntouched(s, b, a.name);
      OnlyOwnEntryMatters(s, sb.value, a);
    }
    if sa.Some? && sb.Some? {
      var (x, y) := (Both(s, a, b).value, Both(s, b, a).value);
      forall n ensures SameEntry(x, y, n) {
        BothEntries(s, a, b, n);
      }
      assert x.identities == y.identities by {
        forall n | n in x.identities ensures n in y.identities && x.identities[n] == y.identities[n] {
          assert SameEntry(x, y, n);
        }
        forall n | n in y.identities ensures n in x.identities {
          assert SameEntry(x, y, n);
        }
      }
      ApplyDefault(s, a);
      ApplyDefault(s, b);
      ApplyDefault(sa.value, b);
      ApplyDefault(sb.value, a);
    }
    UseAccepted(s, a);
    UseAccepted(s, b);
  }

  lemma {:induction false} UseAccepted(s: Store, op: Op)
    ensures op.Use? ==> (Apply(s, op).Some? <==> op.name in s.identities)
  {
  }

  lemma {:induction false} BothEntries(s: Store, a: Op, b: Op, n: string)
    requires a.name != b.name && Both(s, a, b).Some? && Both(s, b, a).Some?
    ensures SameEntry(Both(s, a, b).value, Both(s, b, a).value, n)
  {
    hide Apply;
    var (sa, sb) := (Apply(s, a).value, Apply(s, b).value);
    if n != a.name {
      OtherNamesUntouched(s, a, n);
      OtherNamesUntouched(sb, a, n);
    }
    if n != b.name {
      OtherNamesUntouched(s, b, n);
      OtherNamesUntouched(sa, b, n);
    }
    if n == a.name {
      OnlyOwnEntryMatters(s, sb, a);
    } else if n == b.name {
      OnlyOwnEntryMatters(s, sa, b);
    }
  }
}
