/**
 The install ledger (internal/installer/ledger.go): what a document must satisfy to be
 accepted, and the loop that decides whether a recorded step set is one the installer
 can have produced.
 */
module InstallLedger {
  import opened Basics

  datatype StepKey =
    | BinaryInstall | AptBase | Firewall | BaseUpgrade | HostPrep | IdentityAccess | ServiceIdentities
    | Ipv6Disable | TorConfigure | TorGate | AptTorProxy | BtcDownload | BtcVerify | BtcInstall | BtcStart
    | Security | LndDownload | LndVerify | LndInstall | TorLnd | LndConfigure | LndStart | LndTlsSan
    | LndCertWatch | SshHarden | JournalAccess | HelperEnable | StateStage | ShellEnv
    | UnknownKey(name: string)

  const BASE_KEYS: seq<StepKey> := [
    BinaryInstall, AptBase, Firewall, BaseUpgrade, HostPrep, IdentityAccess, ServiceIdentities,
    Ipv6Disable, TorConfigure, TorGate, AptTorProxy, BtcDownload, BtcVerify, BtcInstall, BtcStart,
    Security, LndDownload, LndVerify, LndInstall, TorLnd, LndConfigure, LndStart, LndTlsSan,
    LndCertWatch, SshHarden, JournalAccess, HelperEnable, StateStage, ShellEnv]

  const BAKE_KEYS: seq<StepKey> := [
    BinaryInstall, AptBase, Firewall, BaseUpgrade, HostPrep, ServiceIdentities,
    Ipv6Disable, TorConfigure, TorGate, AptTorProxy, BtcDownload, BtcVerify, BtcInstall, BtcStart,
    Security, LndDownload, LndVerify, LndInstall, TorLnd, LndConfigure, LndStart, LndTlsSan,
    LndCertWatch, ShellEnv]

  const SCHEMA: int := 1

  // `timeValid` says whether completed_at parses as RFC 3339.
  datatype Entry = Entry(timeValid: bool, version: string)

  datatype Status = InProgress | Complete | OtherStatus

  // One ledger document. `steps` is None for a JSON null.
  datatype Doc = Doc(schema: int, status: Status, network: string, p2pMode: string,
                     dbCache: Option<int>, steps: Option<map<StepKey, Entry>>)

  predicate ValidNetwork(n: string) {
    n == "mainnet" || n == "testnet4" || n == "public-signet"
  }

  predicate ValidDbCache(v: int) {
    v == 512 || v == 1024 || v == 2048
  }

  // strings.TrimSpace leaves nothing.
  predicate Blank(s: string) {
    forall c | c in s :: IsSpace(c)
  }

  // The keys of the first n steps.
  function Prefix(keys: seq<StepKey>, n: nat): set<StepKey>
    requires n <= |keys|
  {
    set i | 0 <= i < n :: keys[i]
  }

  // The union of a prefix of the full run and a prefix of the bake run.
  ghost predicate Progress(full: seq<StepKey>, bake: seq<StepKey>, done: set<StepKey>) {
    exists f, b | 0 <= f <= |full| && 0 <= b <= |bake| :: done == Prefix(full, f) + Prefix(bake, b)
  }

  predicate AllStepsDone(steps: map<StepKey, Entry>, full: seq<StepKey>) {
    steps.Keys == Prefix(full, |full|)
  }

  // What validateLedger demands, for the full and the bake list of an installer.
  ghost predicate ValidDoc(d: Doc, full: seq<StepKey>, bake: seq<StepKey>) {
    && d.schema == SCHEMA
    && d.status != OtherStatus
    && ValidNetwork(d.network)
    && (d.p2pMode == "tor" || d.p2pMode == "hybrid")
    && (d.dbCache.Some? ==> ValidDbCache(d.dbCache.value))
    && d.steps.Some?
    && var steps := d.steps.value;
       && (forall k | k in steps :: k in Prefix(full, |full|) && steps[k].timeValid && !Blank(steps[k].version))
       && (steps != map[] ==> d.dbCache.Some?)
       && Progress(full, bake, steps.Keys)
       && (d.status == Complete ==> AllStepsDone(steps, full))
  }

  function NewDoc(network: string, p2pMode: string): Doc {
    Doc(SCHEMA, InProgress, network, p2pMode, None, Some(map[]))
  }

  lemma NothingIsNotDone()
    ensures !AllStepsDone(map[], BASE_KEYS)
  {
    PrefixNonEmpty(BASE_KEYS);
  }

  lemma PrefixNonEmpty(keys: seq<StepKey>)
    requires |keys| > 0
    ensures Prefix(keys, |keys|) != {}
  {
    assert keys[0] in Prefix(keys, |keys|);
  }

  lemma NewDocValid(network: string, p2pMode: string, full: seq<StepKey>, bake: seq<StepKey>)
    requires ValidNetwork(network) && (p2pMode == "tor" || p2pMode == "hybrid") && full != []
    ensures ValidDoc(NewDoc(network, p2pMode), full, bake)
  {
    assert {} == Prefix(full, 0) + Prefix(bake, 0);
  }

  lemma StepKeepsDocValid(d: Doc, full: seq<StepKey>, bake: seq<StepKey>, key: StepKey, version: string)
    requires ValidDoc(d, full, bake) && d.status != Complete && d.dbCache.Some?
    requires key in Prefix(full, |full|) && !Blank(version) && Progress(full, bake, d.steps.value.Keys + {key})
    ensures ValidDoc(d.(steps := Some(d.steps.value[key := Entry(true, version)])), full, bake)
  {
    assert d.steps.value[key := Entry(true, version)].Keys == d.steps.value.Keys + {key};
  }

  lemma PrefixNext(keys: seq<StepKey>, n: nat)
    requires n < |keys|
    ensures Prefix(keys, n + 1) == Prefix(keys, n) + {keys[n]}
  {
  }

  lemma PrefixMax(keys: seq<StepKey>, m: nat, n: nat)
    requires m <= |keys| && n <= |keys|
    ensures Prefix(keys, m) + Prefix(keys, n) == Prefix(keys, if m < n then n else m)
  {
  }

  // The set of the first n keys, collected one by one as the validator does.
  method CollectPrefix(candidate: set<StepKey>, keys: seq<StepKey>, n: nat) returns (r: set<StepKey>)
    requires n <= |keys|
    ensures r == candidate + Prefix(keys, n)
  {
    r := candidate;
    for i := 0 to n
      invariant r == candidate + Prefix(keys, i)
    {
      PrefixNext(keys, i);
      r := r + {keys[i]};
    }
  }

  // validInstallProgressSubset: tries every pair of prefixes.
  method ValidInstallProgressSubset(full: seq<StepKey>, bake: seq<StepKey>, want: set<StepKey>) returns (ok: bool)
    ensures ok <==> Progress(full, bake, want)
  {
    for f := 0 to |full| + 1
      invariant forall i, j | 0 <= i < f && 0 <= j <= |bake| :: want != Prefix(full, i) + Prefix(bake, j)
    {
      for b := 0 to |bake| + 1
        invariant forall i, j | 0 <= i < f && 0 <= j <= |bake| :: want != Prefix(full, i) + Prefix(bake, j)
        invariant forall j | 0 <= j < b :: want != Prefix(full, f) + Prefix(bake, j)
      {
        var candidate := CollectPrefix({}, full, f);
        candidate := CollectPrefix(candidate, bake, b);
        assert candidate == Prefix(full, f) + Prefix(bake, b);
        if candidate == want {
          return true;
        }
      }
    }
    ok := false;
  }

  // validateLedger, check by check.
  method ValidateLedger(d: Doc, full: seq<StepKey>, bake: seq<StepKey>) returns (ok: bool)
    ensures ok <==> ValidDoc(d, full, bake)
  {
    if d.schema != SCHEMA || d.status == OtherStatus || !ValidNetwork(d.network) ||
       (d.p2pMode != "tor" && d.p2pMode != "hybrid") ||
       (d.dbCache.Some? && !ValidDbCache(d.dbCache.value)) || d.steps == None
    {
      return false;
    }
    var steps := d.steps.value;
    var allowed := CollectPrefix({}, full, |full|);
    var rest := steps.Keys;
    while rest != {}
      invariant rest <= steps.Keys
      invariant forall k | k in steps.Keys - rest :: k in allowed && steps[k].timeValid && !Blank(steps[k].version)
    {
      var k :| k in rest;
      if k !in allowed || Blank(steps[k].version) || !steps[k].timeValid {
        return false;
      }
      rest := rest - {k};
    }
    if steps != map[] && d.dbCache == None {
      return false;
    }
    var progress := ValidInstallProgressSubset(full, bake, steps.Keys);
    ok := progress && (d.status == Complete ==> AllStepsDone(steps, full));
  }

  // The ledger a running installer holds in memory.
  class Ledger {
    const full: seq<StepKey>
    var doc: Doc

    constructor (full: seq<StepKey>, doc: Doc)
      ensures this.full == full && this.doc == doc
    {
      this.full, this.doc := full, doc;
    }

    function Done(): set<StepKey>
      reads this
    {
      if doc.steps.Some? then doc.steps.value.Keys else {}
    }

    method MarkDone(key: StepKey, version: string) returns (ok: bool)
      requires doc.steps.Some?
      modifies this
      ensures ok == (key in Prefix(full, |full|) && !Blank(version))
      ensures doc == if !ok then old(doc) else
                     old(doc).(steps := Some(old(doc).steps.value[key := Entry(true, version)]))
    {
      var allowed := CollectPrefix({}, full, |full|);
      if key !in allowed || Blank(version) {
        return false;
      }
      doc := doc.(steps := Some(doc.steps.value[key := Entry(true, version)]));
      ok := true;
    }

    method SetDbCache(v: int) returns (ok: bool)
      modifies this
      ensures ok == (ValidDbCache(v) && old(doc).dbCache in {None, Some(v)})
      ensures doc == if ok then old(doc).(dbCache := Some(v)) else old(doc)
    {
      ok := ValidDbCache(v) && (doc.dbCache == None || doc.dbCache == Some(v));
      if ok {
        doc := doc.(dbCache := Some(v));
      }
    }

    method MarkComplete() returns (ok: bool)
      modifies this
      ensures ok == (old(doc).steps.Some? && AllStepsDone(old(doc).steps.value, full))
      ensures doc == if ok then old(doc).(status := Complete) else old(doc)
    {
      ok := doc.steps.Some? && AllStepsDone(doc.steps.value, full);
      if ok {
        doc := doc.(status := Complete);
      }
    }
  }
}
