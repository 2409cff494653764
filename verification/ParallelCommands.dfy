/** Identity commands running in parallel: the lock protocol with the identity operations as its mutations. */
module ParallelCommands {
  import Ids = IdentityStore
  import Text
  import opened FileSystem
  import opened StoreProtocol
  import opened ProtocolSafety
  import LostUpdate
  import opened StoreErrors
  import opened Wrappers

  /** Process `p` runs `update_store` with the mutation of `ops[p]`. */
  ghost predicate Commands(c: Config<Ids.Store>, ops: map<nat, Ids.Op>) {
    && c.empty == Ids.EMPTY
    && c.mutations.Keys == ops.Keys
    && (forall p, s | p in ops :: c.mutations[p](s) == Ids.Apply(s, ops[p]))
  }

  function OpsOf(ops: map<nat, Ids.Op>, log: seq<nat>): (r: seq<Ids.Op>)
    requires forall p :: p in log ==> p in ops
    ensures |r| == |log| && forall i :: 0 <= i < |log| ==> r[i] == ops[log[i]]
  {
    seq(|log|, i requires 0 <= i < |log| => ops[log[i]])
  }

  lemma {:induction false} ReplayIsRun(c: Config<Ids.Store>, ops: map<nat, Ids.Op>, s: Ids.Store, log: seq<nat>)
    requires Commands(c, ops) && Replay(c, Some(s), log).Some?
    ensures forall p :: p in log ==> p in ops
    ensures Replay(c, Some(s), log) == Some(Ids.RunFrom(s, OpsOf(ops, log)))
    decreases |log|
  {
    hide Ids.Apply;
    if log != [] {
      var front := log[..|log| - 1];
      ReplayIsRun(c, ops, s, front);
      assert log == front + [log[|log| - 1]];
      assert OpsOf(ops, log)[..|log| - 1] == OpsOf(ops, front);
    }
  }

  /** In every gentle run, the store that parallel commands leave is the one that the committed commands would
      leave if run one after another, in lock order; so it is sound if it was sound before. */
  lemma {:induction false} ParallelRunIsSequential(c: Config<Ids.Store>, ops: map<nat, Ids.Op>, s: State<Ids.Store>,
                                                   steps: seq<Step>, before: Ids.Store)
    requires Commands(c, ops) && InversePair(c) && GentleRun(c, s, steps)
    requires Current(c, s.fs) == Some(before)
    ensures var end := Exec(c, s, steps).value;
            && (forall p :: p in end.log ==> p in ops)
            && Current(c, end.fs) == Some(Ids.RunFrom(before, OpsOf(ops, end.log)))
            && (Ids.Sound(before) ==> Ids.Sound(Current(c, end.fs).value))
  {
    var end := Exec(c, s, steps).value;
    hide *;
    Serializability(c, s, steps);
    ReplayOfCommitted(c, s, end);
    ReplayIsRun(c, ops, before, end.log);
    if Ids.Sound(before) {
      Ids.RunsAreSound(before, OpsOf(ops, end.log));
    }
  }

  lemma {:induction false} ReplayOfCommitted(c: Config<Ids.Store>, s: State<Ids.Store>, end: State<Ids.Store>)
    requires Current(c, s.fs).Some?
    requires Current(c, end.fs) == Replay(c, Current(c, s.fs), end.log)
    requires end.log != [] ==> Current(c, end.fs).Some?
    ensures Replay(c, Current(c, s.fs), end.log).Some?
  {
    hide Current;
  }

  /** The operation stores a new identity with these keys. */
  ghost predicate Stores(op: Ids.Op, name: string, publicKey: string, secretKey: string) {
    match op
    case Generate(n, _, derived) => n == name && derived == Ok((publicKey, secretKey))
    case Import(n, _, secret, derived) => n == name && derived == Ok(publicKey) && Text.Trim(secret) == secretKey
    case _ => false
  }

  /** The store has an identity with exactly these keys. */
  ghost predicate Kept(s: Ids.Store, name: string, publicKey: string, secretKey: string) {
    && name in s.identities
    && s.identities[name].publicKey == publicKey && s.identities[name].secretKey == secretKey
    && s.identities[name].fundedOn == []
  }

  lemma {:induction false} ReplayUnfold(c: Config<Ids.Store>, ops: map<nat, Ids.Op>, init: Option<Ids.Store>,
                                        log: seq<nat>)
    requires Commands(c, ops) && log != [] && Replay(c, init, log).Some?
    ensures var front := log[..|log| - 1];
            var last := log[|log| - 1];
            && log == front + [last] && last in ops && Replay(c, init, front).Some?
            && Replay(c, init, log) == Ids.Apply(Replay(c, init, front).value, ops[last])
  {
    hide Ids.Apply;
  }

  lemma {:induction false} StoresKeys(s: Ids.Store, op: Ids.Op, name: string, publicKey: string, secretKey: string)
    requires Stores(op, name, publicKey, secretKey) && Ids.Apply(s, op).Some?
    ensures Kept(Ids.Apply(s, op).value, name, publicKey, secretKey)
  {
    Ids.NewIdentity(s, op);
    hide Ids.Apply, Text.Trim;
  }

  lemma {:induction false} OthersKeep(s: Ids.Store, op: Ids.Op, name: string, publicKey: string, secretKey: string)
    requires Kept(s, name, publicKey, secretKey) && Ids.Apply(s, op).Some? && op.name != name
    ensures Kept(Ids.Apply(s, op).value, name, publicKey, secretKey)
  {
    Ids.OtherNamesUntouched(s, op, name);
    hide Ids.Apply;
  }

  lemma {:induction false} ReplayKeeps(c: Config<Ids.Store>, ops: map<nat, Ids.Op>, init: Option<Ids.Store>,
                                       log: seq<nat>, p: nat, name: string, publicKey: string, secretKey: string)
    requires Commands(c, ops) && Replay(c, init, log).Some?
    requires p in log && p in ops && Stores(ops[p], name, publicKey, secretKey)
    requires forall q :: q in ops && q != p ==> ops[q].name != name
    ensures Kept(Replay(c, init, log).value, name, publicKey, secretKey)
    decreases |log|
  {
    hide *;
    var front := log[..|log| - 1];
    var last := log[|log| - 1];
    ReplayUnfold(c, ops, init, log);
    if last != p {
      ReplayKeeps(c, ops, init, front, p, name, publicKey, secretKey);
      OthersKeep(Replay(c, init, front).value, ops[last], name, publicKey, secretKey);
    } else {
      StoresKeys(Replay(c, init, front).value, ops[p], name, publicKey, secretKey);
    }
  }

  /** No lost identity: if a `generate` or an `import` has committed and no other command is about that name, its keys
      are in the store, whatever the other commands did, in every interleaving and through every crash. */
  lemma {:induction false} NoLostIdentity(c: Config<Ids.Store>, ops: map<nat, Ids.Op>, s: State<Ids.Store>,
                                          steps: seq<Step>, p: nat, name: string, publicKey: string, secretKey: string)
    requires Commands(c, ops) && InversePair(c) && GentleRun(c, s, steps)
    requires p in ops && Stores(ops[p], name, publicKey, secretKey)
    requires forall q :: q in ops && q != p ==> ops[q].name != name
    requires p in Exec(c, s, steps).value.procs && IsCommitted(Exec(c, s, steps).value.procs[p].pc)
    ensures var end := Current(c, Exec(c, s, steps).value.fs);
            end.Some? && Kept(end.value, name, publicKey, secretKey)
  {
    Serializability(c, s, steps);
    var end := Exec(c, s, steps).value;
    assert p in end.log;
    ReplayKeeps(c, ops, Current(c, s.fs), end.log, p, name, publicKey, secretKey);
  }

  /** The store has the identity and lists the network for it. */
  ghost predicate Funded(s: Ids.Store, name: string, network: string) {
    name in s.identities && network in s.identities[name].fundedOn
  }

  lemma {:induction false} FundStep(s: Ids.Store, op: Ids.Op, name: string, network: string)
    requires Ids.Apply(s, op).Some? && (op.name == name ==> op.Use? || op.Fund?)
    ensures var t := Ids.Apply(s, op).value;
            && (name in t.identities <==> name in s.identities)
            && (Funded(s, name, network) ==> Funded(t, name, network))
            && (op == Ids.Fund(name, network) && name in s.identities ==> Funded(t, name, network))
  {
  }

  lemma {:induction false} ReplayFunds(c: Config<Ids.Store>, ops: map<nat, Ids.Op>, init: Ids.Store, log: seq<nat>,
                                       name: string, network: string)
    requires Commands(c, ops) && Replay(c, Some(init), log).Some?
    requires forall q :: q in ops && ops[q].name == name ==> ops[q].Use? || ops[q].Fund?
    ensures var end := Replay(c, Some(init), log).value;
            && (name in end.identities <==> name in init.identities)
            && forall p :: p in log && p in ops && ops[p] == Ids.Fund(name, network) && name in init.identities ==>
                 Funded(end, name, network)
    decreases |log|
  {
    hide Ids.Apply, Funded;
    if log != [] {
      var front := log[..|log| - 1];
      var last := log[|log| - 1];
      ReplayUnfold(c, ops, Some(init), log);
      hide Commands, Replay;
      ReplayFunds(c, ops, init, front, name, network);
      FundStep(Replay(c, Some(init), front).value, ops[last], name, network);
    }
  }

  /** No lost funding: if a `fund` has committed and the other commands about that name are `use` and `fund`, the
      network is listed in the store if and only if the identity was there to begin with. */
  lemma {:induction false} NoLostFunding(c: Config<Ids.Store>, ops: map<nat, Ids.Op>, s: State<Ids.Store>,
                                         steps: seq<Step>, p: nat, name: string, network: string, before: Ids.Store)
    requires Commands(c, ops) && InversePair(c) && GentleRun(c, s, steps)
    requires Current(c, s.fs) == Some(before)
    requires p in ops && ops[p] == Ids.Fund(name, network)
    requires forall q :: q in ops && ops[q].name == name ==> ops[q].Use? || ops[q].Fund?
    requires p in Exec(c, s, steps).value.procs && IsCommitted(Exec(c, s, steps).value.procs[p].pc)
    ensures var end := Current(c, Exec(c, s, steps).value.fs);
            end.Some? && (name in end.value.identities && network in end.value.identities[name].fundedOn
                          <==> name in before.identities)
  {
    Serializability(c, s, steps);
    var end := Exec(c, s, steps).value;
    assert p in end.log;
    ReplayFunds(c, ops, before, end.log, name, network);
  }

  lemma {:induction false} OthersAddNothing(s: Ids.Store, op: Ids.Op, name: string)
    requires name !in s.identities && op.name != name && Ids.Apply(s, op).Some?
    ensures name !in Ids.Apply(s, op).value.identities
  {
    Ids.OtherNamesUntouched(s, op, name);
  }

  /** Gentleness is needed for that: if a `generate` or an `import` breaks the lock of a command about another name that
      has loaded the store, both can commit, and the new identity is not in the store. */
  lemma {:induction false} UngentleBreakLosesIdentity(c: Config<Ids.Store>, ops: map<nat, Ids.Op>, s: State<Ids.Store>,
                                                      step: Step, q: nat, v: Ids.Store, name: string)
    requires Commands(c, ops) && InversePair(c) && s.procs.Keys == c.mutations.Keys
    requires BreaksLock(c, s, step) && q in s.procs && s.procs[q].pc == Loaded(v) && Current(c, s.fs) == Some(v)
    requires step.p in ops && (ops[step.p].Generate? || ops[step.p].Import?) && ops[step.p].name == name
    requires name !in v.identities && Ids.Apply(v, ops[step.p]).Some?
    requires q in ops && ops[q].name != name && Ids.Apply(v, ops[q]).Some?
    requires c.createNew ==> TempPath(c.store, step.p) !in s.fs && TempPath(c.store, q) !in s.fs
    ensures exists run :: Exec(c, s, run).Some? &&
              var end := Exec(c, s, run).value;
              && step.p in end.procs && IsCommitted(end.procs[step.p].pc)
              && Current(c, end.fs).Some? && name !in Current(c, end.fs).value.identities
  {
    var x := Ids.Apply(v, ops[step.p]);
    OthersAddNothing(v, ops[q], name);
    assert c.mutations[step.p](v) == Ids.Apply(v, ops[step.p]) && c.mutations[q](v) == Ids.Apply(v, ops[q]);
    LostUpdate.UngentleBreakLosesUpdate(c, s, step, q, v, v, x.value, Ids.Apply(v, ops[q]).value);
    hide *;
    var run := [step] + LostUpdate.LosingSteps(step.p, Do(c, s, step).value.procs[step.p].wake, q);
    CommittedWhileReleasing(Exec(c, s, run).value.procs[step.p].pc);
  }

  lemma CommittedWhileReleasing<S>(pc: Pc<S>)
    requires pc == Releasing(Committed)
    ensures IsCommitted(pc)
  {
  }
}
