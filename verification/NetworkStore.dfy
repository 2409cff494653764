/** The network store: its mutations, export and import, and what holds over every run of them. */
module NetworkStore {
  import Text
  import opened StoreErrors
  import opened Wrappers

  datatype Network = Network(rpcUrl: string, passphrase: string)

  /** What the store file, and an export file, hold. */
  datatype Store = Store(networks: map<string, Network>, default: Option<string>)

  const EMPTY := Store(map[], None)

  /** `well_known`: the built-in presets. */
  function WellKnown(name: string): Option<Network> {
    if name == "testnet" then
      Some(Network("https://soroban-testnet.stellar.org", "Test SDF Network ; September 2015"))
    else if name == "futurenet" then
      Some(Network("https://rpc-futurenet.stellar.org", "Test SDF Future Network ; October 2022"))
    else if name == "mainnet" then
      Some(Network("https://mainnet.sorobanrpc.com", "Public Global Stellar Network ; September 2015"))
    else if name == "localnet" then
      Some(Network("http://localhost:8000/soroban/rpc", "Standalone Network ; February 2017"))
    else None
  }

  function Get(s: Store, name: string): Option<Network> {
    if name in s.networks then Some(s.networks[name]) else None
  }

  /** `resolve_network`: the store first, then the presets. */
  function Resolve(s: Store, name: string): Option<Network> {
    if name in s.networks then Some(s.networks[name]) else WellKnown(name)
  }

  // ---------- URL validation ----------

  predicate SchemeAt(s: string, i: nat) {
    i + 3 <= |s| && s[i] == ':' && s[i + 1] == '/' && s[i + 2] == '/'
  }

  /** `find("://")`. */
  function FindScheme(s: string): (r: Option<nat>)
    ensures r.Some? ==> SchemeAt(s, r.value) && forall i :: 0 <= i < r.value ==> !SchemeAt(s, i)
    ensures r.None? ==> forall i :: 0 <= i < |s| ==> !SchemeAt(s, i)
  {
    if |s| < 3 then None
    else if SchemeAt(s, 0) then Some(0)
    else
      var r := FindScheme(s[1..]);
      assert forall i {:trigger SchemeAt(s, i)} :: 0 < i < |s| ==> (SchemeAt(s, i) <==> SchemeAt(s[1..], i - 1));
      if r.None? then None else Some(r.value + 1)
  }

  /** `validate_rpc_url`: no surrounding white space, a scheme, and a host before any path, port, query or fragment. */
  predicate ValidUrl(url: string) {
    var scheme := FindScheme(url);
    && Text.Trim(url) == url
    && scheme.Some? && scheme.value > 0
    && var rest := url[scheme.value + 3..];
       rest != "" && rest[0] !in {'/', ':', '?', '#'}
  }

  // ---------- the operations on store values ----------

  datatype Op =
    | Add(name: string, rpcUrl: Option<string>, passphrase: Option<string>, force: bool)
    | Use(name: string)
    | Remove(name: string)
    | Import(file: Store, force: bool)

  /** The network `network add` would store over `existing` and `preset`, or None when it is rejected. */
  function Added(existing: Option<Network>, preset: Option<Network>, rpcUrl: Option<string>, passphrase: Option<string>,
                 force: bool): Option<Network> {
    hide ValidUrl;
    var fallback := if existing.Some? then existing else preset;
    if existing.Some? && !force then None
    else if rpcUrl.Some? && !ValidUrl(rpcUrl.value) then None
    else if existing.None? && preset.Some? && rpcUrl.Some? != passphrase.Some? then None
    else if rpcUrl.Some? && passphrase.Some? then Some(Network(rpcUrl.value, passphrase.value))
    else if fallback.None? then None
    else Some(Network(if rpcUrl.Some? then rpcUrl.value else fallback.value.rpcUrl,
                      if passphrase.Some? then passphrase.value else fallback.value.passphrase))
  }

  function Apply(s: Store, op: Op): Option<Store> {
    match op
    case Add(name, rpcUrl, passphrase, force) =>
      var network := Added(Get(s, name), WellKnown(name), rpcUrl, passphrase, force);
      if network.None? then None
      else Some(Store(s.networks[name := network.value], if s.default.None? then Some(name) else s.default))
    case Use(name) =>
      if Resolve(s, name).None? then None else Some(s.(default := Some(name)))
    case Remove(name) =>
      if name !in s.networks then None
      else Some(Store(s.networks - {name}, if s.default == Some(name) then None else s.default))
    case Import(file, force) =>
      if !force && !(file.networks.Keys !! s.networks.Keys) then None
      else Some(Store(s.networks + file.networks, if s.default.None? then file.default else s.default))
  }

  /** `export_networks`: everything, or one network with the default only if it is the default. */
  function Export(s: Store, name: Option<string>): Option<Store> {
    match name
    case None => Some(s)
    case Some(n) =>
      if n !in s.networks then None
      else Some(Store(map[n := s.networks[n]], if s.default == Some(n) then Some(n) else None))
  }

  // ---------- the store that the closures mutate ----------

  class NetworkStore {
    var networks: map<string, Network>
    var default: Option<string>

    function View(): Store
      reads this
    {
      Store(networks, default)
    }

    constructor (s: Store)
      ensures View() == s
    {
      networks, default := s.networks, s.default;
    }

    /** `add_network_to_store`. */
    method Add(name: string, rpcUrl: Option<string>, passphrase: Option<string>, force: bool)
      returns (r: Result<Network>)
      modifies this
      ensures var after := Apply(old(View()), Op.Add(name, rpcUrl, passphrase, force));
              if after.None? then r.Err? && View() == old(View())
              else View() == after.value && r == Ok(networks[name])
      ensures r == Err(AlreadyExists) <==> name in old(networks) && !force
      ensures default == if r.Ok? && old(default).None? then Some(name) else old(default)
      ensures forall n :: n != name ==> Get(View(), n) == Get(old(View()), n)
    {
      hide WellKnown, ValidUrl;
      var existing := if name in networks then Some(networks[name]) else None;
      if existing.Some? && !force {
        return Err(AlreadyExists);
      }
      if rpcUrl.Some? && !ValidUrl(rpcUrl.value) {
        return Err(InvalidArgument);
      }
      var preset := WellKnown(name);
      if existing.None? && preset.Some? && rpcUrl.Some? != passphrase.Some? {
        return Err(InvalidArgument);
      }
      var fallback := if existing.Some? then existing else preset;
      var network: Network;
      if rpcUrl.Some? && passphrase.Some? {
        network := Network(rpcUrl.value, passphrase.value);
      } else if fallback.Some? {
        var url := if rpcUrl.Some? then rpcUrl.value else fallback.value.rpcUrl;
        network := Network(url, if passphrase.Some? then passphrase.value else fallback.value.passphrase);
      } else {
        return Err(InvalidArgument);
      }
      networks := networks[name := network];
      if default.None? {
        default := Some(name);
      }
      r := Ok(network);
    }

    /** The mutation of `network use`. */
    method Use(name: string) returns (r: Result<string>)
      modifies this
      ensures var after := Apply(old(View()), Op.Use(name));
              View() == (if after.None? then old(View()) else after.value) && (r.Ok? <==> after.Some?)
      ensures r.Ok? <==> name in networks || WellKnown(name).Some?
      ensures networks == old(networks) && default == if r.Ok? then Some(name) else old(default)
      ensures r.Ok? ==> r.value == if name in networks then networks[name].rpcUrl else WellKnown(name).value.rpcUrl
    {
      hide WellKnown;
      var network := Resolve(View(), name);
      if network.None? {
        return Err(InvalidArgument);
      }
      default := Some(name);
      r := Ok(network.value.rpcUrl);
    }

    /** The mutation of `network remove`; a preset without a stored entry cannot be removed. */
    method Remove(name: string) returns (r: Result<Network>)
      modifies this
      ensures var after := Apply(old(View()), Op.Remove(name));
              View() == (if after.None? then old(View()) else after.value) && (r.Ok? <==> after.Some?)
      ensures r.Ok? ==> r.value == old(networks)[name]
      ensures r.Ok? <==> name in old(networks)
      ensures name !in networks && forall n :: n != name ==> Get(View(), n) == Get(old(View()), n)
      ensures default == if r.Ok? && old(default) == Some(name) then None else old(default)
    {
      if name !in networks {
        return Err(InvalidArgument);
      }
      var removed := networks[name];
      networks := networks - {name};
      if default == Some(name) {
        default := None;
      }
      r := Ok(removed);
    }

    /** `merge_networks`. */
    method Merge(file: Store, force: bool) returns (r: Result<nat>)
      modifies this
      ensures var after := Apply(old(View()), Op.Import(file, force));
              View() == (if after.None? then old(View()) else after.value)
              && r == if after.None? then Err(AlreadyExists) else Ok(|file.networks|)
    {
      if !force && !(file.networks.Keys !! networks.Keys) {
        return Err(AlreadyExists);
      }
      networks := networks + file.networks;
      if default.None? {
        default := file.default;
      }
      r := Ok(|file.networks|);
    }
  }

  // ---------- what the operations do, field by field ----------

  /** A stored network can be overwritten by force, with either field left as it is; a preset can be taken whole or
      replaced whole; any other name needs both fields. */
  ghost predicate AddAccepted(s: Store, op: Op, preset: Option<Network>)
    requires op.Add?
  {
    && (op.name in s.networks ==> op.force)
    && (op.rpcUrl.Some? ==> ValidUrl(op.rpcUrl.value))
    && (op.name in s.networks
        || if preset.Some? then op.rpcUrl.Some? <==> op.passphrase.Some? else op.rpcUrl.Some? && op.passphrase.Some?)
  }

  /** The given fields are stored, the others come from the stored network or else the preset. */
  ghost predicate StoresFields(s: Store, t: Store, op: Op, preset: Option<Network>)
    requires op.Add?
  {
    && op.name in t.networks
    && var (network, stored) := (t.networks[op.name], Get(s, op.name));
       && op.rpcUrl == (if op.rpcUrl.Some? then Some(network.rpcUrl) else None)
       && op.passphrase == (if op.passphrase.Some? then Some(network.passphrase) else None)
       && (op.rpcUrl.None? && stored.Some? ==> network.rpcUrl == stored.value.rpcUrl)
       && (op.passphrase.None? && stored.Some? ==> network.passphrase == stored.value.passphrase)
       && (op.rpcUrl.None? && stored.None? ==> preset == Some(network))
       && (op.passphrase.None? && stored.None? ==> preset == Some(network))
  }

  /** `network add`: when it is accepted, and what the entries and the default are then. */
  lemma {:induction false} AddEffect(s: Store, op: Op)
    requires op.Add?
    ensures Apply(s, op).Some? <==> AddAccepted(s, op, WellKnown(op.name))
    ensures Apply(s, op).Some? ==>
              var t := Apply(s, op).value;
              && StoresFields(s, t, op, WellKnown(op.name))
              && t.default == (if s.default.None? then Some(op.name) else s.default)
              && forall n :: n != op.name ==> Get(t, n) == Get(s, n)
  {
    hide WellKnown, ValidUrl;
  }

  /** `network use` and `network remove`. */
  lemma {:induction false} UseAndRemoveEffect(s: Store, name: string)
    ensures Apply(s, Use(name)) == if name in s.networks || WellKnown(name).Some?
                                   then Some(Store(s.networks, Some(name))) else None
    ensures Apply(s, Remove(name)).Some? <==> name in s.networks
    ensures name in s.networks ==>
              var t := Apply(s, Remove(name)).value;
              && name !in t.networks && (forall n :: n != name ==> Get(t, n) == Get(s, n))
              && t.default == if s.default == Some(name) then None else s.default
  {
    hide WellKnown;
  }

  /** The first addition to the empty store becomes the default, the second does not, and `use` changes that. */
  lemma {:induction false} DefaultOfTwo(a: Op, b: Op)
    requires a.Add? && b.Add? && Apply(EMPTY, a).Some? && Apply(Apply(EMPTY, a).value, b).Some?
    ensures var one := Apply(EMPTY, a).value;
            var two := Apply(one, b).value;
            && one.default == Some(a.name) && two.default == Some(a.name)
            && Apply(two, Use(b.name)).Some? && Apply(two, Use(b.name)).value.default == Some(b.name)
            && Apply(two, Use(b.name)).value.networks == two.networks
  {
    hide WellKnown, ValidUrl, Added;
  }

  /** The four built-in networks. */
  lemma {:induction false} Presets(name: string)
    ensures WellKnown("testnet")
         == Some(Network("https://soroban-testnet.stellar.org", "Test SDF Network ; September 2015"))
    ensures WellKnown("futurenet")
         == Some(Network("https://rpc-futurenet.stellar.org", "Test SDF Future Network ; October 2022"))
    ensures WellKnown("mainnet")
         == Some(Network("https://mainnet.sorobanrpc.com", "Public Global Stellar Network ; September 2015"))
    ensures WellKnown("localnet")
         == Some(Network("http://localhost:8000/soroban/rpc", "Standalone Network ; February 2017"))
    ensures WellKnown(name).Some? <==> name in {"testnet", "futurenet", "mainnet", "localnet"}
  {
  }

  // ---------- every run ----------

  function RunFrom(s: Store, ops: seq<Op>): Store {
    if ops == [] then s
    else
      var before := RunFrom(s, ops[..|ops| - 1]);
      var after := Apply(before, ops[|ops| - 1]);
      if after.None? then before else after.value
  }

  /** The default resolves, and every stored URL is valid. */
  ghost predicate Sound(s: Store) {
    && (s.default.Some? ==> Resolve(s, s.default.value).Some?)
    && (forall n :: n in s.networks ==> ValidUrl(s.networks[n].rpcUrl))
  }

  /** The operation imports nothing, or a file that some sound store exported. */
  ghost predicate ImportsExports(op: Op) {
    op.Import? ==> exists s: Store, name: Option<string> :: Sound(s) && Export(s, name) == Some(op.file)
  }

  lemma {:induction false} FindSchemeIs(s: string, k: nat)
    requires SchemeAt(s, k) && forall i :: 0 <= i < k ==> !SchemeAt(s, i)
    ensures FindScheme(s) == Some(k)
  {
    var r := FindScheme(s);
    assert r.Some? && !(r.value < k) && !(k < r.value);
  }

  lemma {:induction false} TrimmedAlready(s: string)
    requires s != "" && !Text.IsWhitespace(s[0]) && !Text.IsWhitespace(s[|s| - 1])
    ensures Text.Trim(s) == s
  {
  }

  ghost predicate Reads(s: string, i: nat, word: string) {
    i + |word| <= |s| && s[i..i + |word|] == word
  }

  lemma {:induction false} SchemeReads(s: string, i: nat)
    ensures SchemeAt(s, i) <==> Reads(s, i, "://")
  {
    if i + 3 <= |s| {
      assert s[i..i + 3] == [s[i], s[i + 1], s[i + 2]];
    }
  }

  lemma SchemeFits(s: string, i: nat)
    requires SchemeAt(s, i)
    ensures i + 3 <= |s|
  {
  }

  /** A URL is valid exactly when there is no white space around it, its first `://` has something before it, and after
      it comes a character that begins no path, port, query or fragment. */
  lemma {:induction false} UrlIsValidExactly(url: string, k: nat)
    requires Reads(url, k, "://") && forall i :: 0 <= i < k ==> !Reads(url, i, "://")
    ensures ValidUrl(url) <==>
              && (Text.IsTrimmed(url) && 0 < k && k + 3 < |url|)
              && url[k + 3] != '/' && url[k + 3] != ':' && url[k + 3] != '?' && url[k + 3] != '#'
  {
    hide Text.Trim, Text.IsTrimmed, FindScheme, SchemeAt;
    SchemeReads(url, k);
    SchemeFits(url, k);
    forall i | 0 <= i < k
      ensures !SchemeAt(url, i)
    {
      SchemeReads(url, i);
    }
    FindSchemeIs(url, k);
    var a, b := Text.TrimCuts(url);
    if Text.IsTrimmed(url) {
      Text.TrimOfPadded("", url, "");
      assert "" + url + "" == url;
    }
  }

  /** Without `://` it is not. */
  lemma {:induction false} NoSchemeNoUrl(url: string)
    requires forall i :: 0 <= i < |url| ==> !Reads(url, i, "://")
    ensures !ValidUrl(url)
  {
    hide SchemeAt;
    var r := FindScheme(url);
    if r.Some? {
      SchemeReads(url, r.value);
    }
  }

  lemma {:induction false} UrlIsValid(url: string, k: nat)
    requires 0 < k && k + 3 < |url| && SchemeAt(url, k) && forall i :: 0 <= i < k ==> url[i] != ':'
    requires !Text.IsWhitespace(url[0]) && !Text.IsWhitespace(url[|url| - 1])
    requires url[k + 3] !in {'/', ':', '?', '#'}
    ensures ValidUrl(url)
  {
    FindSchemeIs(url, k);
    TrimmedAlready(url);
  }

  lemma {:induction false} HttpsUrlIsValid(url: string)
    requires "https://" <= url && |url| > 8 && 'a' <= url[8] <= 'z'
    requires !Text.IsWhitespace(url[|url| - 1])
    ensures ValidUrl(url)
  {
    UrlIsValid(url, 5);
  }

  lemma {:induction false} TestnetUrlIsValid()
    ensures ValidUrl("https://soroban-testnet.stellar.org")
  {
    hide ValidUrl;
    HttpsUrlIsValid("https://soroban-testnet.stellar.org");
  }

  lemma {:induction false} FuturenetUrlIsValid()
    ensures ValidUrl("https://rpc-futurenet.stellar.org")
  {
    hide ValidUrl;
    HttpsUrlIsValid("https://rpc-futurenet.stellar.org");
  }

  lemma {:induction false} MainnetUrlIsValid()
    ensures ValidUrl("https://mainnet.sorobanrpc.com")
  {
    hide ValidUrl;
    HttpsUrlIsValid("https://mainnet.sorobanrpc.com");
  }

  lemma {:induction false} LocalnetUrlIsValid()
    ensures ValidUrl("http://localhost:8000/soroban/rpc")
  {
    hide ValidUrl;
    UrlIsValid("http://localhost:8000/soroban/rpc", 4);
  }

  lemma {:induction false} PresetUrlsAreValid(name: string)
    requires WellKnown(name).Some?
    ensures ValidUrl(WellKnown(name).value.rpcUrl)
  {
    hide ValidUrl;
    TestnetUrlIsValid();
    FuturenetUrlIsValid();
    MainnetUrlIsValid();
    LocalnetUrlIsValid();
  }

  lemma {:induction false} AddedUrlIsValid(s: Store, op: Op, network: Network)
    requires Sound(s) && op.Add?
    requires Added(Get(s, op.name), WellKnown(op.name), op.rpcUrl, op.passphrase, op.force) == Some(network)
    ensures ValidUrl(network.rpcUrl)
  {
    hide ValidUrl, WellKnown;
    if WellKnown(op.name).Some? {
      PresetUrlsAreValid(op.name);
    }
  }

  lemma {:induction false} ExportIsSound(s: Store, name: Option<string>)
    requires Sound(s) && Export(s, name).Some?
    ensures Sound(Export(s, name).value)
  {
    hide ValidUrl, WellKnown;
  }

  lemma {:induction false} ApplyKeepsSound(s: Store, op: Op)
    requires Sound(s) && ImportsExports(op) && Apply(s, op).Some?
    ensures Sound(Apply(s, op).value)
  {
    hide ValidUrl, WellKnown, Added;
    var t := Apply(s, op).value;
    match op {
      case Add(name, _, _, _) => AddedUrlIsValid(s, op, t.networks[name]);
      case Import(file, _) =>
        var origin: Store, name: Option<string> :| Sound(origin) && Export(origin, name) == Some(file);
        ExportIsSound(origin, name);
      case _ =>
    }
  }

  /** Over every run whose imported files come from exports of sound stores, the default resolves and every stored
      URL is valid. */
  lemma {:induction false} RunsAreSound(s: Store, ops: seq<Op>)
    requires Sound(s)
    requires forall i :: 0 <= i < |ops| ==> ImportsExports(ops[i])
    ensures Sound(EMPTY)
    ensures Sound(RunFrom(s, ops))
    decreases |ops|
  {
    hide ValidUrl, WellKnown, ImportsExports, Apply;
    if ops != [] {
      RunsAreSound(s, ops[..|ops| - 1]);
      var before := RunFrom(s, ops[..|ops| - 1]);
      if Apply(before, ops[|ops| - 1]).Some? {
        ApplyKeepsSound(before, ops[|ops| - 1]);
      }
    }
  }

  ghost predicate DefaultResolves(s: Store) {
    s.default.Some? ==> Resolve(s, s.default.value).Some?
  }

  /** Importing an arbitrary file keeps the default resolvable exactly when the store already has a default, or the
      file has none, or the file's default is in the file, in the store or built in. */
  lemma {:induction false} ImportKeepsDefault(s: Store, file: Store, force: bool)
    requires DefaultResolves(s) && Apply(s, Import(file, force)).Some?
    ensures DefaultResolves(Apply(s, Import(file, force)).value)
       <==> || s.default.Some? || file.default.None?
            || file.default.value in file.networks || file.default.value in s.networks
            || WellKnown(file.default.value).Some?
  {
    hide WellKnown, ValidUrl;
  }

  /** Importing a full export into an empty store reproduces it. */
  lemma {:induction false} ExportImportRoundTrip(s: Store, force: bool)
    ensures Export(s, None).Some?
    ensures Apply(EMPTY, Import(Export(s, None).value, force)) == Some(s)
  {
    assert EMPTY.networks + s.networks == s.networks;
  }

  /** Exporting one network and importing it: without force it is refused exactly when the name is taken; otherwise that
      network is carried over and no other entry changes, and it becomes the default exactly where it was the exporting
      store's default and the importing store has none. */
  lemma {:induction false} ExportOneImport(s: Store, name: string, t: Store, force: bool)
    requires name in s.networks
    ensures var u := Apply(t, Import(Export(s, Some(name)).value, force));
            && (u.Some? <==> force || name !in t.networks)
            && (u.Some? ==>
                  && (forall n :: Get(u.value, n) == if n == name then Get(s, name) else Get(t, n))
                  && u.value.default == if t.default.None? && s.default == Some(name) then Some(name) else t.default)
  {
  }

  /** `network import`: refused without force exactly when some name is in both; otherwise every network of the file is
      stored, the others stay, and the file's default counts only if there was none. */
  lemma {:induction false} ImportEffect(s: Store, file: Store, force: bool)
    ensures Apply(s, Import(file, force)).Some? <==> force || forall n :: n in file.networks ==> n !in s.networks
    ensures Apply(s, Import(file, force)).Some? ==>
              var t := Apply(s, Import(file, force)).value;
              && (forall n :: Get(t, n) == if n in file.networks then Some(file.networks[n]) else Get(s, n))
              && t.default == if s.default.Some? then s.default else file.default
  {
    assert file.networks.Keys !! s.networks.Keys <==> forall n :: n in file.networks ==> n !in s.networks by {
      assert forall n :: n in file.networks <==> n in file.networks.Keys;
      if file.networks.Keys !! s.networks.Keys {
        forall n | n in file.networks ensures n !in s.networks {
          assert n in s.networks ==> n in file.networks.Keys * s.networks.Keys;
        }
      }
    }
  }

  /** Without force an import never replaces a stored network. */
  lemma {:induction false} ImportWithoutForceKeeps(s: Store, file: Store, n: string)
    requires Apply(s, Import(file, false)).Some? && n in s.networks
    ensures Get(Apply(s, Import(file, false)).value, n) == Get(s, n)
  {
    assert !(n in file.networks.Keys && n in s.networks.Keys);
  }

  /** The first `add` of a built-in name stores either the preset or a wholly custom network, never a mixture. */
  lemma {:induction false} NoMixedPreset(s: Store, op: Op)
    requires op.Add? && op.name !in s.networks && WellKnown(op.name).Some? && Apply(s, op).Some?
    ensures Get(Apply(s, op).value, op.name)
         == if op.rpcUrl.Some? || op.passphrase.Some?
            then Some(Network(if op.rpcUrl.Some? then op.rpcUrl.value else "",
                              if op.passphrase.Some? then op.passphrase.value else ""))
            else WellKnown(op.name)
    ensures op.rpcUrl.Some? <==> op.passphrase.Some?
  {
    hide WellKnown, ValidUrl;
  }
}
