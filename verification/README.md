# Verified models of soroban-forge

soroban-forge is a command-line tool for Soroban contracts. This project models the parts of it that keep state on disk,
generate code or transform text, and proves what they promise. `dafny verify dfyconfig.toml` checks everything.

| files | what they model |
|---|---|
| `FileSystem`, `StoreProtocol`, `ProtocolSafety`, `LostUpdate`, `Handover`, `ProtocolTiming`, `LockAcquire`, `AcquireTrace`, `AtomicWrite` | the store-update protocol: lock file, load, mutate, write a temporary file, sync, rename, unlink, with any number of processes, I/O errors, crashes and power losses |
| `IdentityStore`, `NetworkStore`, `ParallelCommands` | the two stores, their operations over whole runs, and identity commands running in parallel under the lock |
| `PyRuntime`, `PyCodec`, `PyRoundTrip`, `PyWire`, `PyUnion` | the Python client generator: spec types compiled to codec expressions, an evaluator for them, annotations, tagged enums |
| `EditDistance`, `Suggestions` | three edit-distance routines and the "did you mean" hints |
| `Calendar` | deployment time stamps |
| `Text`, `Render`, `Indent`, `Preset`, `Redact`, `Shell`, `MergeArgs` | the `{{name}}` renderer, CI step overrides, log redaction, the dry-run command line, argument files |

How the models are built:

- A loop or an in-place update of the source is a method with loop invariants, proved equal to a function; the laws are
  lemmas about that function. The stores and the disk are classes.
- The lock protocol is a step relation in which a stale lock is broken by the source's two calls, a stat and a removal,
  with anything in between (or, as a special case, by both at once: `OneStepIsTwoCalls`). Its safety has an exact
  condition: a run is *gentle* if no removal of a stale lock happens while somebody is inside `with_lock`. Holders own
  their lock file throughout a run if and only if it is gentle (`OwnedIffGentle`); gentle runs have mutual exclusion and
  serializability; any break that is not gentle lets a second process in two steps later (`UngentleBreakAdmitsTwo`) and,
  if the first has loaded the store, can lose an update (`UngentleBreakLosesUpdate`).
  Runs are gentle when holders finish within `STALE_AFTER` and the removed file is still stale (`SafeIsGentle`). The
  source checks neither: `SplitBreakAdmitsTwo` and `SlowHolderAdmitsTwo` are runs that are not gentle. That the store
  file is never torn needs no condition at all.
- The emitted Python is an expression tree with an environment-passing evaluator in which comprehensions and lambdas
  rebind `_e`, `_k`, `_v` and `_t`, and the iterable and the argument are evaluated outside. The names in a constructor
  call and in a dictionary display are those that were emitted. It is compared with a codec
  that recurses over the type and has no variables. None is a raised exception. `n` bounds the nesting of `_decode` and
  `_encode` calls, as Python's recursion limit does; what is well typed at one depth is at all greater ones.

Where the code does not do what its documentation or a reader expects, the code is modelled and the exact condition is
proved:

- Breaking a stale lock is not one step, so it can remove a lock that has just been taken; see above.
- A one-element tuple type decodes to the bare element, because the emitted parentheses have no comma; a codec round
  trip needs that the value holds no one-element tuple (`CodecRoundTrip`), and annotations hold exactly away from such
  types (`DecodedInhabitsAnnotation`). In a tagged enum the comma is there (`UnionRoundTrip`), but a tuple case without
  types is annotated `tuple[]`, which Python cannot parse.
- Generated clients that do not load: `LoadsExactly` says when the struct classes are the reason. Two fields called like a
  Python keyword and that keyword with an underscore become the same keyword argument; a tuple struct has fields called
  `0` and `1`, which are no names (`TupleStructDoesNotLoad`); a struct called `None` or `True` is not escaped; and a field
  called `_decode` or `_encode` gets the method as its default value, so no ordinary field may follow it.
- A field called `_encode` hides the method: its objects cannot be encoded (`EncodeFieldHidesMethod`).
- Maps keyed by lists, maps or structs, also inside results and tuples, decode only when empty (`UnhashableKeysRaise`).
- In `merge_args` a file value that looks like a flag is judged as one, so it can be left behind without its flag, or go
  while its flag stays; `MergeOfPairs` says when neither happens.
- The byte-sized edit-distance matrix overshoots on non-ASCII text; `ByteMatrixAgreement` says when it is exact.
- An empty word is quoted to nothing, so a dry-run line reads back if and only if no word is empty and none is masked.
- Re-indenting a step override composes if and only if no non-blank line ends in a carriage return. It can panic, when the
  smallest indentation ends inside a character: below an item indented by one space, a no-break space does it
  (`PanicsExactly`, `NoBreakSpacePanics`).
- Importing a network file can leave a default that does not resolve; `ImportKeepsDefault` says when it does not.
- `unix_secs_to_ymdhms` is right exactly up to day 2^32 - 1 - 719468.

## Model

| member | source | states |
|---|---|---|
| FileSystem.PathsDiffer | crates/core/src/atomic.rs:92-96 | the store, its lock file and the temporary files of different processes are different paths |
| FileSystem.PathNames | crates/core/src/atomic.rs:92-96 | the names of the lock file and the temporary file beside a store, and what a lock file holds |
| FileSystem.DecimalDenotes | crates/core/src/atomic.rs:92-96 | a process number is written in decimal digits without leading zeros |
| FileSystem.OnlySyncedIsSafe | crates/core/src/atomic.rs:71-74 | after a power loss a file may be gone or hold anything if and only if it was not synced |
| ProtocolSafety.RunKeepsInv | crates/core/src/lock.rs:86-129 | after every gentle run: a holder's pid is in the lock file, what it loaded is still on disk, its temporary file is its own, and the store is the replay of the committed mutations |
| ProtocolSafety.MutualExclusion | crates/core/src/lock.rs:86-129 | after every gentle run, one that removes no stale lock while somebody is inside, at most one process is inside `with_lock` |
| ProtocolSafety.OwnedIffGentle | crates/core/src/lock.rs:86-168 | everybody inside owns the lock file at every state of a run if and only if the run is gentle |
| ProtocolSafety.UngentleBreakAdmitsTwo | crates/core/src/lock.rs:146-168 | whenever a lock is broken while somebody is inside, the breaker's next two steps put it inside too |
| LostUpdate.UngentleBreakLosesUpdate | crates/core/src/lock.rs:7-18 | whenever the broken lock belongs to a process that has loaded the store, both processes can commit, and the store is what the second made of the old store, not of the first one's |
| ProtocolSafety.SafeIsGentle | crates/core/src/lock.rs:46-51 | a run is gentle if holders finish within `STALE_AFTER` and every removal meets a file that is still stale |
| ProtocolSafety.OneStepIsTwoCalls | crates/core/src/lock.rs:146-168 | a one-step break is the stat and the removal with nothing in between |
| ProtocolSafety.DropRemovesOwnLock | crates/core/src/lock.rs:63-70 | after every gentle run, the lock file that a held guard's drop finds under the name it unlinks is the one its process created |
| Handover.DropEffect | crates/core/src/lock.rs:63-70 | a drop whose unlink works leaves no lock file and every other file as it was; one whose unlink fails changes no file |
| Handover.TryCreateEffect | crates/core/src/lock.rs:131-144 | a create by a waiting process makes the lock file its own if there is none, and else changes nothing |
| Handover.NextGoesIn | crates/core/src/lock.rs:63-129 | after every gentle run that ends with a releasing holder: once its drop has worked, a waiting process whose sleep is over is inside after its next create, alone and with its own lock file; if the unlink failed it meets the old one |
| Handover.LockedOut | crates/core/src/lock.rs:133-144 | while somebody is inside, a waiting process that tries does not go in |
| Handover.CheckEffect | crates/core/src/lock.rs:146-168 | a working check removes the lock file if and only if it is at least sixty seconds old, and no other file |
| Handover.RemoveEffect | crates/core/src/lock.rs:146-168 | the second call of a break removes whatever lock file is there, old or new, and no other file |
| Handover.CrashDoesNotWedge | crates/core/src/lock.rs:34-51 | a lock file that nobody will remove keeps no one out for longer: from sixty seconds after its creation a waiting process is inside three calls later |
| Handover.DeadlineEffect | crates/core/src/lock.rs:103-129 | a process that broke nothing gives up if and only if ten seconds have passed, and else sleeps for ten milliseconds |
| Handover.FailEffect | crates/core/src/atomic.rs:63-84 | where an I/O error can come and what it leaves: a waiting process gives up; a holder lets go with an error, a failed write leaves anything in the temporary file and a failed rename removes it |
| Handover.CrashEffect | crates/core/src/lock.rs:34-36 | a process can crash anywhere before its end, and no file changes, so the lock file stays |
| Handover.TempIsUnsafeUntilSynced | crates/core/src/atomic.rs:67-75 | the temporary file is created empty, then holds the encoding, and can come back from a power loss with other data until it is synced and not after |
| Handover.UpdateCommits | crates/identity/src/lib.rs:94-104 | an update that nobody disturbs commits: the store is the encoding of the mutated one, synced, the lock and the temporary file are gone, and no other file has changed |
| Handover.UpdateStartsFrom | crates/identity/src/lib.rs:94-104 | the first update of a store without a file starts from the empty store, any other from what the file parses to |
| Handover.RejectedChangesNothing | crates/identity/src/lib.rs:92-104 | an update whose mutation fails leaves every file as it was |
| Handover.BrokenStoreFails | crates/identity/src/lib.rs:94-104 | and so does one that finds a store it cannot parse |
| Handover.LeftoverTempFails | crates/core/src/atomic.rs:38-61 | and so does one that must create its temporary file and finds it there |
| ProtocolSafety.Serializability | crates/identity/src/lib.rs:94-104 | after every gentle run, with serialisation an inverse pair, the store is the initial one with exactly the committed mutations applied, each once, in lock order; a process is among them if and only if it committed |
| ProtocolSafety.OnlyRenameChangesStore | crates/core/src/atomic.rs:77-84 | a step either leaves the store file alone or puts a complete, synced encoding in its place, whoever holds the lock |
| ProtocolSafety.StoreIsNeverTorn | crates/core/src/atomic.rs:53-85 | at every point of every run from an initial state, power losses, slow holders and broken locks included, the store file is the initial file or a complete encoding |
| ProtocolTiming.AtMostOneBreak | crates/core/src/lock.rs:103-168 | if staleness checks come within the timeout plus the 50 s margin, one `acquire` removes at most one lock file, whatever comes between its stat and its removal |
| ProtocolTiming.NeverBreaksYounger | crates/core/src/lock.rs:46-54 | such a check, the stat or the one-step break, never finds a lock file stale that was created after the waiter began |
| ProtocolTiming.SplitBreakAdmitsTwo | crates/core/src/lock.rs:146-168 | a run of timely holders in which a removal meets a lock file created since its stat puts two processes inside |
| ProtocolTiming.SlowHolderAdmitsTwo | crates/core/src/lock.rs:146-168 | a run of one-step breaks with a holder that takes `STALE_AFTER` puts two processes inside |
| LockAcquire.Directory.BreakIfStale | crates/core/src/lock.rs:146-168 | on a directory that others change between the stat and the removal: removes exactly a readable, not future-dated stamp at least `STALE_AFTER` old, and reports whether the removal worked |
| LockAcquire.Directory.Acquire | crates/core/src/lock.rs:103-129 | on a directory that others change between any two calls: the loop ends in the first round that neither breaks nor waits, with that round's answer; the lock file is created on success and only then; it sleeps once per waiting round |
| LockAcquire.AcquireInTime | crates/core/src/lock.rs:103-129 | on a monotone clock with checks in time: at most one break, at most 1002 rounds, never undecided after that many, and a timeout is reported at the first deadline check past it |
| LockAcquire.AtMostOneBreak | crates/core/src/lock.rs:46-54 | no two rounds of one call both break, if a lock seen after a break is newer than it |
| LockAcquire.FewSleeps | crates/core/src/lock.rs:53-54 | the sleeps of one call fit into the acquire timeout |
| LockAcquire.NeverBreaksNewLock | crates/core/src/lock.rs:46-54 | no round breaks a lock created after the wait began before the timeout and the margin are over, and one created just when it began is broken exactly from then on |
| LockAcquire.RunsIsDeterministic | crates/core/src/lock.rs:103-129 | a sequence of rounds determines the answer and the round it comes in |
| AcquireTrace.RunKeepsTrace | crates/core/src/lock.rs:103-168 | in every run of the protocol, with any interference, the rounds of each process are on a monotone clock, see only newer locks after a break, and agree with its program counter |
| AcquireTrace.EveryAcquireEnds | crates/core/src/lock.rs:103-168 | in every run with prompt checks the rounds of each process meet the conditions of `AcquireInTime`: at most one break, at most 1002 rounds; it is in the loop while undecided, holds the lock only after creating it, and ends with a timeout exactly if it gave up, with an I/O error if the create failed, and otherwise only after it had the lock |
| AtomicWrite.Disk.WriteAtomic | crates/core/src/atomic.rs:53-85 | for every failing call: success leaves exactly the contents, synced, and no temporary file; failure leaves the destination; no other file changes |
| AtomicWrite.AloneIsOneCall | crates/core/src/atomic.rs:53-85 | a writer of the many-writer machine that nobody interrupts does to the files what the call does, for every way of failing |
| AtomicWrite.CrashAtomicity | crates/core/src/atomic.rs:53-96 | with many writers, no lock, crashes and power losses, the destination is its initial contents or one writer's complete contents, that of the last rename |
| IdentityStore.IdentityStore.Generate | crates/identity/src/lib.rs:128-146 | rejected without force on an existing name or without keys, else the name holds the new key pair; nothing else changes |
| IdentityStore.IdentityStore.Import | crates/identity/src/lib.rs:311-331 | accepted if and only if the name is free or forced and the key derives; the name then has the derived public key, the trimmed secret key and no network, and nothing else changes |
| IdentityStore.NewIdentity | crates/identity/src/lib.rs:128-146 | `generate` and `import`, field by field: accepted if and only if the name is free or forced and the keys derive; then the name has that public key, that secret key, trimmed if imported, and no network, and every other entry and the default stay |
| IdentityStore.IdentityStore.Remove | crates/identity/src/lib.rs:149-161 | removes the name and clears the default if it was that name |
| IdentityStore.IdentityStore.Use | crates/identity/src/lib.rs:937-945 | makes a stored name the default |
| IdentityStore.IdentityStore.Fund | crates/identity/src/lib.rs:1018-1025 | records the network once; a name that is gone is no error |
| IdentityStore.RunsAreSound | crates/identity/src/lib.rs:128-161 | over every run the default names a stored identity and no identity lists a network twice |
| IdentityStore.OtherNamesUntouched | crates/identity/src/lib.rs:128-161 | an operation changes only the identity it names |
| IdentityStore.RemoveUndoesGenerate | crates/identity/src/lib.rs:149-161 | removing a newly generated name restores the store |
| IdentityStore.DifferentNamesCommute | crates/identity/src/lib.rs:128-161 | operations on different names commute, if and only if they are not two accepted `use` commands |
| ParallelCommands.ParallelRunIsSequential | crates/identity/src/lib.rs:81-104 | after every gentle run, parallel identity commands have left the store that the committed ones leave when run one after another in lock order |
| ParallelCommands.NoLostIdentity | crates/core/src/lock.rs:11-24 | after every gentle run, the keys of a `generate` or `import` that committed, even if it crashed after its rename, are in the store under its name if no other command mentions the name, whatever the others did |
| ParallelCommands.NoLostFunding | crates/identity/src/lib.rs:1018-1025 | after every gentle run in which a `fund` committed and the other commands about its name are `use` and `fund`, the network is listed if and only if the identity was there to begin with |
| ParallelCommands.UngentleBreakLosesIdentity | crates/core/src/lock.rs:11-24 | the new identity of a `generate` or `import` that breaks the lock of a command about another name which has loaded the store can be committed and still not be in the store |
| NetworkStore.NetworkStore.Add | crates/network/src/lib.rs:140-188 | accepts and stores exactly what the rules on force, presets and fallbacks allow; the first addition becomes the default |
| NetworkStore.AddEffect | crates/network/src/lib.rs:140-188 | when an addition is accepted; a field that is given is stored, one that is not comes from the stored network or else the preset; the default changes if and only if there was none; no other entry changes |
| NetworkStore.UseAndRemoveEffect | crates/network/src/lib.rs:1097-1203 | `use` takes a name that is stored or built in, `remove` one that is stored, and each changes the default as the source does and no other entry |
| NetworkStore.DefaultOfTwo | crates/network/src/lib.rs:185-187 | of two additions to the empty store the first stays the default, until `use` names the second |
| NetworkStore.Presets | crates/network/src/lib.rs:46-71 | the four built-in networks, and no others |
| NetworkStore.NoSchemeNoUrl | crates/network/src/lib.rs:799-807 | without `://` a URL is not valid |
| NetworkStore.UrlIsValidExactly | crates/network/src/lib.rs:788-821 | a URL is valid if and only if it has no white space around it, something before its first `://`, and after it a character that begins no path, port, query or fragment |
| NetworkStore.NetworkStore.Use | crates/network/src/lib.rs:1097-1107 | makes a name that resolves the default |
| NetworkStore.NetworkStore.Remove | crates/network/src/lib.rs:1179-1203 | removes a stored entry, refuses a mere preset, clears the default if it was that name |
| NetworkStore.NetworkStore.Merge | crates/network/src/lib.rs:218-243 | rejects any collision without force, else takes every imported network, and the imported default only if there was none |
| NetworkStore.RunsAreSound | crates/network/src/lib.rs:140-250 | over every run whose imported files were exported from sound stores, the default resolves and every URL is valid |
| NetworkStore.ImportKeepsDefault | crates/network/src/lib.rs:218-243 | importing any file keeps the default resolvable if and only if the store had one, the file has none, or the file's resolves |
| NetworkStore.ImportEffect | crates/network/src/lib.rs:218-243 | an import is refused without force if and only if some name is in both; else it stores every network of the file, keeps the others, and takes the file's default if and only if there was none |
| NetworkStore.ExportImportRoundTrip | crates/network/src/lib.rs:191-207 | importing a full export into an empty store reproduces it |
| NetworkStore.ExportOneImport | crates/network/src/lib.rs:191-243 | importing an exported network is refused exactly when the name is taken and not forced; else it carries over that network and no other, and the default exactly when it was the default and there is none |
| NetworkStore.ImportWithoutForceKeeps | crates/network/src/lib.rs:218-243 | without force an import never changes a stored network |
| NetworkStore.NoMixedPreset | crates/network/src/lib.rs:140-188 | the first addition of a preset name stores the preset or a wholly custom network |
| PyCodec.RenderStruct | crates/binding-py/src/lib.rs:552-588 | the loops emit, field by field, the attributes of the class, the arguments of `_decode` and the items of `_encode` |
| PyCodec.DecodeMethod | crates/binding-py/src/lib.rs:562-577 | what the emitted `_decode` returns is an object of the class whose attributes are the fields in order, each under its name, a keyword with an underscore behind it, and decoded from the member of exactly that name |
| PyCodec.EncodeMethod | crates/binding-py/src/lib.rs:579-587 | what the emitted `_encode` returns is a wire struct whose members are the fields in order, each under its own name, keyword or not, and encoded from the attribute of the escaped name |
| PyCodec.DecodeIsScoped | crates/binding-py/src/lib.rs:402-465 | for every type, argument expression and environment, the emitted decoder evaluates to the variable-free decoder of the argument's value |
| PyCodec.EncodeIsScoped | crates/binding-py/src/lib.rs:468-521 | the same for the encoder |
| PyRuntime.MapConversions | crates/binding-py/src/lib.rs:440-444 | `from_map` undoes `to_map` on dictionaries with distinct keys |
| PyRuntime.BuildKeys | crates/binding-py/src/lib.rs:440-444 | a dictionary comprehension holds no key twice and nothing that was not put in |
| PyWire.FieldCalledFrom | crates/binding-py/src/lib.rs:536-588 | a field `from` is the wire member `from` and the attribute `from_`, each made of the other by the emitted methods |
| PyWire.KeywordsEscaped | crates/binding-py/src/lib.rs:529-550 | exactly the keywords of Python get an underscore |
| PyWire.NamesExactly | crates/binding-py/src/lib.rs:552-588 | what is a name and which fields get a method as their default value, character by character |
| PyWire.IntegersOnWire | crates/binding-py/src/lib.rs:468-489 | each integer type goes out as the wire kind of its own name, if the value fits it, and else raises |
| PyWire.WideIntegersOnWire | crates/binding-py/src/lib.rs:468-489 | and so do the integers of 128 and 256 bits |
| PyWire.OthersOnWire | crates/binding-py/src/lib.rs:468-489 | and so do the other scalars, a muxed address as an address |
| PyWire.FixedBytesOnWire | crates/binding-py/src/lib.rs:468-520 | bytes of a fixed length go out as bytes, and the type void sends void, whatever the value |
| PyWire.OptionOnWire | crates/binding-py/src/lib.rs:499-508 | None goes out as void at the type of an option, any other value as at the type inside; a result as at its ok type |
| PyWire.ScalarsDecode | crates/binding-py/src/lib.rs:403-423 | each wire kind decodes at the types of its name, to a Python value of the right kind, and raises at every other |
| PyWire.VecOnWire | crates/binding-py/src/lib.rs:495-498 | a list goes out element by element, in order |
| PyWire.TupleOnWire | crates/binding-py/src/lib.rs:509-516 | a tuple goes out as a vector, each element at its own type, in order |
| PyWire.DictOnWire | crates/binding-py/src/lib.rs:503-507 | a dictionary goes out entry by entry, in order, if no two keys encode alike |
| PyRoundTrip.ScalarTablesAgree | crates/binding-py/src/lib.rs:403-423 | the scalar tables of the decoder, the encoder and the annotations agree |
| PyRoundTrip.ScalarAnnotations | crates/binding-py/src/lib.rs:347-361 | the annotation of a scalar admits exactly the Python values of its kind |
| PyRoundTrip.CompoundAnnotations | crates/binding-py/src/lib.rs:366-398 | the annotation of a compound type admits exactly what is built of values that its parts' annotations admit |
| PyRoundTrip.DecodedInhabitsAnnotation | crates/binding-py/src/lib.rs:347-398 | a decoded value has the type that `py_type` annotates if and only if no place of it, at any depth, has a one-element tuple as its spec type |
| PyRoundTrip.OneTupleFreeAvoids | crates/binding-py/src/lib.rs:347-398 | so it always has it for types without one-element tuples, structs included |
| PyRoundTrip.OneTupleDecodesBare | crates/binding-py/src/lib.rs:446-461 | a one-element tuple type decodes to what its element decodes to |
| PyRoundTrip.OneTupleNeverInhabits | crates/binding-py/src/lib.rs:446-461 | no value decoded at a one-element tuple type has the type that `py_type` annotates |
| PyRoundTrip.WellTypedEncodes | crates/binding-py/src/lib.rs:468-521 | in a module that loads, every well-typed value in which no object hides its `_encode` encodes, and only None encodes to void |
| PyRoundTrip.UnencodableRaises | crates/binding-py/src/lib.rs:552-588 | and every other one raises, however deep the object is |
| PyRoundTrip.EncodeFieldHidesMethod | crates/binding-py/src/lib.rs:552-588 | so every object of a struct with a field `_encode` raises |
| PyRoundTrip.CodecRoundTrip | crates/binding-py/src/lib.rs:402-588 | for every type and well-typed value, encoding succeeds if and only if the struct classes load and no object in the value hides its `_encode`, and decoding gives the value back if and only if, besides, it holds no one-element tuple |
| PyRoundTrip.EmittedCodeRoundTrip | crates/binding-py/src/lib.rs:402-521 | the same of the emitted expressions, in any scope |
| PyRoundTrip.EncodeIsInjective | crates/binding-py/src/lib.rs:468-521 | no two such values have the same encoding |
| PyRoundTrip.EncodedKeysDistinct | crates/binding-py/src/lib.rs:503-507 | distinct map keys stay distinct on the wire |
| PyRoundTrip.MembersAreFields | crates/binding-py/src/lib.rs:562-586 | `from_struct` finds under each field name what `to_struct` was given |
| PyRoundTrip.MoreDepth | crates/binding-py/src/lib.rs:562-586 | the nesting bound is no restriction: well-typed values stay well typed at every greater depth |
| PyRoundTrip.MapDecodes | crates/binding-py/src/lib.rs:440-444 | a map decodes if and only if all its keys and values do and each key is of a type, with options at None where needed, that Python can hash |
| PyRoundTrip.UnhashableKeysRaise | crates/binding-py/src/lib.rs:440-444 | a map keyed by lists, maps or structs, or by results or tuples of them, decodes if and only if it is empty |
| PyRoundTrip.HashableKeysDecode | crates/binding-py/src/lib.rs:440-444 | a map whose key type has no list, map or struct in it decodes if and only if its keys and values do |
| PyRoundTrip.LoadsExactly | crates/binding-py/src/lib.rs:552-588 | the struct classes load if and only if each is called by a name that is no keyword, every field is a name, and no struct has a field twice, a keyword and its escape, or an ordinary field after one called like a method |
| PyRoundTrip.TupleStructDoesNotLoad | crates/binding-py/src/lib.rs:552-588 | with a struct whose field starts with a digit, as in a tuple struct, the module does not load |
| PyRoundTrip.IdentifiersCollide | crates/binding-py/src/lib.rs:529-550 | an escaped name is no keyword; two names collide if and only if one is a keyword and the other its escape |
| PyUnion.RenderUnion | crates/binding-py/src/lib.rs:626-752 | the loops emit one decode arm and one encode arm per case, in order, with the shape of its arity |
| PyUnion.UnionEncodes | crates/binding-py/src/lib.rs:718-752 | the arm of the object's own class is taken, and the wire value has the case name and its encoded values, unless one of them raises |
| PyUnion.UnionDecodes | crates/binding-py/src/lib.rs:661-716 | the arm of the tag is taken, through the None, bare and list shapes, and yields the case's object |
| PyUnion.UnionRoundTrip | crates/binding-py/src/lib.rs:626-752 | for distinct case names, decoding the encoding gives the object back if and only if the struct classes load, the union parses, and every value in the case can be encoded and holds no one-element tuple |
| PyUnion.ClassNamesAreNames | crates/binding-py/src/lib.rs:630-651 | the class names of a union are names exactly when its case names hold only letters, digits and underscores |
| PyUnion.WrongShapeRaises | crates/binding-py/src/lib.rs:670-695 | a bare value where the case has several, or several or none where it has one, raises |
| PyUnion.CaseObjectExactly | crates/binding-py/src/lib.rs:630-651 | the class and the attribute of a case, by name |
| PyUnion.ParsesExactly | crates/binding-py/src/lib.rs:626-662 | a union's code parses if and only if its name and all class names can be names, there is a case, and none has an empty list of types |
| PyUnion.NothingRunsUnloaded | crates/binding-py/src/lib.rs:626-752 | in a module that does not load both functions raise |
| PyUnion.UnknownTagRaises | crates/binding-py/src/lib.rs:713-716 | a tag that names no case raises |
| EditDistance.FullMatrix | crates/core/src/cli.rs:43-57 | the filled matrix ends in the edit distance |
| EditDistance.TwoRows | crates/deploy/src/lib.rs:637-649 | the two-row loop computes the same |
| EditDistance.LevIsShortestScript | crates/core/src/cli.rs:42-57 | the edit distance is the length of a shortest insert/delete/substitute script: one of that length exists and none is shorter |
| EditDistance.LevIsAMetric | crates/core/src/cli.rs:43-57 | zero if and only if equal, symmetric, triangle inequality |
| Suggestions.ByteMatrix | crates/invoke/src/identity_helpers.rs:55-78 | the byte-sized matrix computes the distance of the strings padded by their excess bytes |
| Suggestions.ByteMatrixAgreement | crates/invoke/src/identity_helpers.rs:55-78 | for all pairs: it never undershoots, overshoots by at most the difference of the excesses, and is exact if and only if some shortest script from the string with more excess to the other ends in that many insertions |
| Suggestions.ByteMatrixOnAscii | crates/invoke/src/identity_helpers.rs:55-78 | it is exact on ASCII |
| Suggestions.ByteMatrixOvershoots | crates/invoke/src/identity_helpers.rs:55-78 | one accented letter makes it overshoot |
| Suggestions.ClosestMatch | crates/core/src/cli.rs:58-60 | the first nearest candidate, if it is within the threshold |
| Suggestions.ClosestIdentityName | crates/deploy/src/lib.rs:623-635 | the first nearest name, if it is within a third of the length |
| Suggestions.SuggestIdentity | crates/invoke/src/identity_helpers.rs:7-30 | the first nearest name by the byte-sized matrix, if it is within 2 |
| Suggestions.SuggestionsAgreeOnAscii | crates/invoke/src/identity_helpers.rs:7-30 | on ASCII names it is the hint of `closest_match` with threshold 2 |
| Calendar.DaysToYmdInvertsOrdinal | crates/deploy/src/lib.rs:903-916 | the result is a valid date whose day number is the input; nothing over- or underflows |
| Calendar.DaysToYmdCorrect | crates/deploy/src/lib.rs:903-916 | it is the date reached by that many Gregorian next-day steps from 1970-01-01 |
| Calendar.YmdToDaysRoundTrip | crates/deploy/src/lib.rs:903-916 | every valid date in range is produced by its own day number |
| Calendar.UnixSecsToYmdhms | crates/deploy/src/lib.rs:891-901 | the stamp denotes the second count exactly up to the last day of the u32 range; past it the cast to u32 makes it wrong |
| Calendar.StampsAreMonotone | crates/deploy/src/lib.rs:880-901 | later seconds give later stamps, and different seconds different ones |
| Render.RenderStr | crates/core/src/render.rs:17-47 | the cursor loop is the recursive renderer |
| Render.RenderLiteral | crates/core/src/render.rs:17-47 | text before the first opening is copied |
| Render.RenderPlaceholder | crates/core/src/render.rs:17-47 | a closed placeholder is filled if its trimmed name is known, else copied |
| Render.RenderPadded | crates/core/src/render.rs:17-47 | white space around the name inside the braces does not matter: a known name becomes its value, an unknown placeholder stays as written |
| Render.RenderUnterminated | crates/core/src/render.rs:17-47 | text in which nothing closes is copied, openings included |
| Render.RenderComposes | crates/core/src/render.rs:17-47 | rendering with v1 and then v2 is one rendering with v1 overriding v2, for every text, if no value of v1 holds a brace |
| Render.BracesBreakComposition | crates/core/src/render.rs:17-47 | a value that is itself a placeholder breaks it |
| Render.RenderIdempotent | crates/core/src/render.rs:17-47 | rendering twice is rendering once |
| Render.RenderNothing | crates/core/src/render.rs:17-47 | rendering with no variables changes nothing |
| Text.ConcatOfLines | crates/ci-presets/src/lib.rs:123-123 | splitting after every newline loses nothing |
| Text.TrimCuts | crates/core/src/render.rs:27-27 | a text is white space, its trimmed form, and white space, and the trimmed form has none at either end |
| Text.TrimOfPadded | crates/core/src/render.rs:27-27 | and that determines the trimmed form |
| Text.LinesOfReturns | crates/ci-presets/src/lib.rs:180-180 | a carriage return before a newline goes with it, and one at the end of the text stays |
| Text.WhitespaceExactly | crates/core/src/render.rs:27-27 | what is white space, character by character |
| Text.LinesRejoin | crates/ci-presets/src/lib.rs:180-180 | without carriage returns, the lines joined by newlines are the text less a final newline; a last line without one is not lost |
| Indent.IndentStep | crates/ci-presets/src/lib.rs:179-209 | the loop re-indents the lines, with the source's errors and its panic on a cut inside a character |
| Indent.IndentOutput | crates/ci-presets/src/lib.rs:179-209 | the output line by line: a blank line is empty, any other has exactly `indent` spaces in place of the common indentation, which some line has and none is below; the first that is not blank is a list item |
| Indent.EmptyExactly | crates/ci-presets/src/lib.rs:187-190 | an override is reported empty if and only if it is white space throughout |
| Indent.IndentTwice | crates/ci-presets/src/lib.rs:179-209 | indenting an accepted step to n and then to m succeeds, and equals indenting to m if and only if no non-blank line ends in a carriage return |
| Indent.PanicsExactly | crates/ci-presets/src/lib.rs:179-209 | it panics if and only if the smallest indentation ends inside a character of the first non-blank line or, that line being an item, of another |
| Indent.NeverPanics | crates/ci-presets/src/lib.rs:179-209 | never if all indentation is one-byte characters |
| Indent.WideIndentPanics | crates/ci-presets/src/lib.rs:179-209 | always for an item indented by one space above a line that begins with a wider white-space character |
| Preset.RenderPreset | crates/ci-presets/src/lib.rs:117-177 | the nested loops cut the lines into segments and replace the overridden ones; they end |
| Preset.GateIsHarmless | crates/ci-presets/src/lib.rs:117-126 | a text without the marker's words is its own splice, so the early return changes nothing: for GitHub the output is always the splice |
| Preset.CutPartitions | crates/ci-presets/src/lib.rs:126-161 | every line is in exactly one segment, in order, and every step is a marker, blank lines and a whole list item |
| Preset.SkipBlankStops | crates/ci-presets/src/lib.rs:134-137 | exactly the blank lines after a marker are skipped |
| Preset.StepEndStops | crates/ci-presets/src/lib.rs:151-161 | the lines of a step after its first are blank or indented deeper than it, and the line after the step is neither |
| Preset.NextItemStays | crates/ci-presets/src/lib.rs:134-176 | a marked step ends before the first line that is neither blank nor indented deeper, whatever it is; if it carries no marker it goes to the output as it is, after the step or its override |
| Preset.SecondItemStays | crates/ci-presets/src/lib.rs:134-176 | of two list items at one indentation, the first one marked, an override of the marker replaces the first alone |
| Preset.ItemLine | crates/ci-presets/src/lib.rs:144-149 | white space, a dash and a space make a list item, indented by that white space, that carries no marker |
| Preset.MarkerOfPadded | crates/ci-presets/src/lib.rs:127-133 | the marker of a line is its bare name, whatever white space is around the name and before the marker |
| Preset.MarkerShape | crates/ci-presets/src/lib.rs:127-133 | and no other line has a marker |
| Preset.SpliceIsPieces | crates/ci-presets/src/lib.rs:163-176 | the output is the segments' pieces put together; it succeeds if and only if the cut and every piece do |
| Preset.OverridesAreLocal | crates/ci-presets/src/lib.rs:163-174 | adding, removing or changing one override changes only the pieces of its marker's steps |
| Preset.NoOverrides | crates/ci-presets/src/lib.rs:163-174 | without overrides every line survives but the markers and the blank lines after them |
| Redact.RedactLogMessage | crates/core/src/logging.rs:15-38 | the cursor loop is the scan into masked and copied pieces |
| Redact.ScanPartitions | crates/core/src/logging.rs:15-38 | the pieces cover the message in order, each starts on a character boundary, and each is masked or copied for the right reason |
| Redact.EveryKeyIsMasked | crates/core/src/logging.rs:46-59 | every isolated 56-byte key is masked as a whole |
| Redact.OutputHasNoLabel | crates/core/src/logging.rs:24-29 | nowhere does the output contain "secret" or "seed", in any case |
| Redact.WhatIsMasked | crates/core/src/logging.rs:40-59 | a key is an S and 55 characters of A to Z and 2 to 7 with none of those on either side; a label is one of the two words in any case; the mask is "[redacted]" |
| Redact.NoWordIsLeft | crates/core/src/logging.rs:24-29 | the output reads neither word anywhere, in terms of characters |
| Redact.KeyDoesNotShow | crates/core/src/logging.rs:15-59 | two messages that differ only in an isolated key have the same output |
| Shell.TokeniseQuotedLine | crates/deploy/src/lib.rs:529-535 | a POSIX tokeniser reads the quoted, joined line as the words less the empty ones |
| Shell.ShellRoundTrip | crates/deploy/src/lib.rs:529-535 | it reads as the list itself if and only if no word is empty |
| Shell.QuotedExactly | crates/deploy/src/lib.rs:529-535 | a word is printed as it is if and only if it holds nothing but letters, digits and `-_./:`, and in single quotes otherwise |
| Shell.FormatDryRunCommand | crates/deploy/src/lib.rs:510-525 | the loop prints the program and each word quoted, or masked if it follows an unmasked secret flag |
| Shell.MaskedWordsDoNotShow | crates/deploy/src/lib.rs:510-525 | argument lists that differ only in masked words print the same |
| Shell.MaskedExactly | crates/deploy/src/lib.rs:503-525 | a word is masked if and only if the run of secret flags directly before it, `--source`, `--secret-key` or `--private-key`, has odd length |
| Shell.SecretDoesNotShow | crates/deploy/src/lib.rs:503-525 | the line does not depend on such a word, and every other word is in it, quoted |
| Shell.MaskIsNotAWord | crates/deploy/src/lib.rs:510-525 | a line with a masked word is not a list of literal words |
| Shell.DryRunReadsBack | crates/deploy/src/lib.rs:510-535 | the line reads back as the command if and only if nothing was masked and no word is empty |
| MergeArgs.Merge | crates/invoke/src/lib.rs:174-217 | the lookahead walk keeps exactly the file tokens that are neither an overridden flag nor its value, and ends with the inline arguments |
| MergeArgs.FilePartIsASubsequence | crates/invoke/src/lib.rs:174-217 | the file part is a subsequence of the file tokens |
| MergeArgs.FilePartHasNoInlineFlag | crates/invoke/src/lib.rs:174-217 | it holds no flag that is given inline |
| MergeArgs.MergeOfPairs | crates/invoke/src/lib.rs:174-217 | on flag/value pairs, whatever the values, it is exactly the pairs that are not overridden, in order, if and only if each value that looks like a flag is given inline exactly when its flag is |
| MergeArgs.StrayValue | crates/invoke/src/lib.rs:170-217 | an overridden flag whose value looks like a flag leaves that value behind |
| MergeArgs.ValueGoesWithFlag | crates/invoke/src/lib.rs:188-197 | a value that does not begin with two dashes, such as `-5`, goes and stays with its flag |

## Left out

Weaker than the source, or idealised:

- StoreProtocol.Do: the pid line is in the lock file from its creation on, in one step; `Instant` and `SystemTime` are
  one clock; `rename`, exclusive create and unlink are atomic, and a directory entry needs no sync of its own.
- LockAcquire.Directory.Acquire: creating the store's directory is not modelled, and a sleep is counted, not waited for;
  in the protocol a sleep delays the next create by at least the poll interval.
- AtomicWrite.Disk.WriteAtomic: creating parent directories and the file mode are not modelled.
- EditDistance.FullMatrix: distances are unbounded; `usize` and `u32` cannot overflow on strings that fit in memory.
- Calendar.UnixSecsToYmdhms: an overflow of the first addition is None; a release build would wrap, a debug build panic.
- Shell.ShellRoundTrip: `char::is_alphanumeric` beyond ASCII is a parameter. The tokeniser covers quoting, blanks and
  operators, not expansions: a line in which one would be needed reads as no word list.
- Preset.RenderPreset: override files are a map from marker to contents; a file that exists but cannot be read is not
  modelled.
- Text.ConcatOfLines: text is a sequence of characters; byte offsets are recovered from UTF-8 lengths.

In the Python model:

- `scval.to_X` and `from_X` are inverse pairs on the integers of the wire type; a map keeps the order of its entries,
  and a struct and an enum are kept apart from the map and the vector that carry them. Scalar contents are numbers.
- Argument text is a primary expression wherever the generator splices it, so precedence is not an issue; Python's limit
  on nested parentheses and bytes or strings as iterables are not modelled.
- `Loads` speaks of struct classes only, and `Parses` of one union. Other definitions can keep the module from loading
  too: an enum case called `None`, or an entrypoint with a parameter called `source`, `signer` or `self`.
- Names are ASCII, as contract symbols are, and the definitions of a contract have distinct names. Not modelled: names
  that begin with two underscores (mangling, special methods), and definitions and parameters that shadow a name the
  module itself uses, such as `scval`, `dataclass`, `SCVal` or the final `Client`.
- A `udt` that is not a struct raises, as the emitted `_decode` does not exist for it; so codecs that contain a tagged
  enum or an integer enum inside another type are outside the round trip.
- `parse_spec`, `render_enum`, the error helper and `render_entrypoint` would add only single-branch facts.

Not modelled, because it is library code, foreign behaviour or wiring:

- Key generation, mnemonics and key encoding: key pairs are opaque inputs. Serialisation of the stores is an inverse
  pair. `forge.toml` patching is a library call.
- Subprocesses, the network, friendbot and endpoint probes; command definitions, printing, JSON reports and help text.
- `list_stored_identities` reads a directory; the sorted names are an input of `SuggestIdentity`.
- Watch loops, output draining, disk-space checks, `load_effective`, the doctor, license texts and version tables.
