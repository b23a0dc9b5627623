/**
 The durable lifecycle bootstrap (internal/installer/lifecycle.go): what the read-only
 classifier makes of a box, and the multi-file initialization it has to recognize after a
 kill at any filesystem operation.
 */
module Lifecycle {
  import opened Basics
  import opened InstallLedger

  datatype Network = Mainnet | Testnet4 | PublicSignet

  // File modes are the nine permission bits.
  const MODE_600: bv9 := 0x180
  const MODE_700: bv9 := 0x1C0
  const MODE_755: bv9 := 0x1ED

  const LAYOUT_CONTENT := "service-layout=1\n"
  const MAX_STATE_BYTES: nat := 65536

  datatype File = File(mode: bv9, text: string)

  datatype PendingMarker = NoMarker | ProperMarker | MalformedMarker

  // Everything the classifier looks at. Directories are their mode; the files below
  // `private` are the four bootstrap objects, and `strangers` stands for any other entry.
  datatype Box = Box(
    ancestorsSafe: bool,
    strayMarker: bool,              // an unknown file under the bootstrap prefix
    markers: map<Network, File>,    // the three known bootstrap files
    foreign: bool,                  // other project paths, users or groups
    conflict: bool,                 // prior-generation paths or identities
    varLib: Option<bv9>, varLibStrangers: bool,
    private: Option<bv9>, privateStrangers: bool,
    ledger: Option<File>, ledgerStage: Option<File>,
    layout: Option<File>, layoutStage: Option<File>,
    pending: PendingMarker)

  datatype Disposition =
    | Pristine
    | Bootstrap(network: Network)
    | Resumable(ledger: Doc)
    | CompletionPending(ledger: Doc)
    | Completed(ledger: Doc)

  // json.MarshalIndent of a ledger, and parseLedger with all its validation.
  datatype Codec = Codec(render: Doc -> string, parse: string -> Option<Doc>)

  function Name(n: Network): string {
    match n
    case Mainnet => "mainnet"
    case Testnet4 => "testnet4"
    case PublicSignet => "public-signet"
  }

  function InitialDoc(n: Network): Doc {
    NewDoc(Name(n), "tor")
  }

  // What the initial ledgers need of their encoding.
  ghost predicate Faithful(c: Codec) {
    forall n: Network ::
      c.parse(c.render(InitialDoc(n))) == Some(InitialDoc(n)) && |c.render(InitialDoc(n))| <= MAX_STATE_BYTES
  }

  predicate SubsetOf(mode: bv9, allowed: bv9) {
    mode & !allowed == 0
  }

  // validateBootstrapFile: an owner-only subset of 0600, since a kill can precede fchmod.
  predicate BootstrapFile(f: File, maxBytes: nat) {
    SubsetOf(f.mode, MODE_600) && |f.text| <= maxBytes
  }

  predicate BootstrapDir(mode: bv9, final: bv9) {
    mode == final || SubsetOf(mode, MODE_700)
  }

  // readValidatedRootFile with mode 0600.
  predicate Readable(f: File) {
    f.mode == MODE_600 && |f.text| <= MAX_STATE_BYTES
  }

  predicate LedgerIs(f: File, c: Codec, d: Doc) {
    Readable(f) && c.parse(f.text) == Some(d)
  }

  predicate LayoutOk(f: File) {
    Readable(f) && f.text == LAYOUT_CONTENT
  }

  // validateBootstrapTree.
  predicate BootstrapTree(b: Box, c: Codec, n: Network) {
    b.varLib.Some? ==>
      && BootstrapDir(b.varLib.value, MODE_755) && !b.varLibStrangers
      && (b.private.Some? ==>
        && BootstrapDir(b.private.value, MODE_700) && !b.privateStrangers && b.pending == NoMarker
        && (b.ledgerStage.Some? ==>
              BootstrapFile(b.ledgerStage.value, MAX_STATE_BYTES) &&
              b.ledger == None && b.layoutStage == None && b.layout == None)
        && (b.ledger.Some? ==> LedgerIs(b.ledger.value, c, InitialDoc(n)))
        && (b.layoutStage.Some? ==>
              BootstrapFile(b.layoutStage.value, |LAYOUT_CONTENT|) && b.ledger.Some? && b.layout == None)
        && (b.layout.Some? ==> b.ledger.Some? && LayoutOk(b.layout.value)))
  }

  function ClassifyBootstrap(b: Box, c: Codec, n: Network): Option<Disposition>
    requires n in b.markers
  {
    if !BootstrapFile(b.markers[n], 0) || b.foreign || b.conflict || !BootstrapTree(b, c, n) then None
    else Some(Bootstrap(n))
  }

  function ClassifyMarked(b: Box, c: Codec): Option<Disposition>
    requires b.layout.Some?
  {
    if b.varLib != Some(MODE_755) || b.private != Some(MODE_700) || !LayoutOk(b.layout.value) ||
       b.ledgerStage.Some? || b.layoutStage.Some? || b.conflict ||
       b.ledger == None || !Readable(b.ledger.value) || b.pending == MalformedMarker
    then None
    else
      match c.parse(b.ledger.value.text)
      case None => None
      case Some(d) =>
        if d.status == Complete then
          if b.pending == ProperMarker then None else Some(Completed(d))
        else if AllDone(d) then Some(CompletionPending(d))
        else Some(Resumable(d))
  }

  predicate AllDone(d: Doc) {
    d.steps.Some? && AllStepsDone(d.steps.value, BASE_KEYS)
  }

  // classifyLifecycleState; None is a refusal.
  function Classify(b: Box, c: Codec): Option<Disposition> {
    if !b.ancestorsSafe || b.strayMarker then None
    else if b.markers.Keys == {Mainnet} then ClassifyBootstrap(b, c, Mainnet)
    else if b.markers.Keys == {Testnet4} then ClassifyBootstrap(b, c, Testnet4)
    else if b.markers.Keys == {PublicSignet} then ClassifyBootstrap(b, c, PublicSignet)
    else if b.markers.Keys != {} then None
    else if b.layout.Some? then ClassifyMarked(b, c)
    else if b.varLib.Some? || b.foreign || b.conflict then None
    else Some(Pristine)
  }

  // Files need their directories.
  ghost predicate WellFormed(b: Box) {
    && (b.varLib == None ==> b.private == None && !b.varLibStrangers)
    && (b.private == None ==>
          b.ledger == None && b.ledgerStage == None && b.layout == None && b.layoutStage == None &&
          !b.privateStrangers && b.pending == NoMarker)
  }

  // The classifier's answers while network n is the one a box is committed to.
  function Answers(n: Network): set<Option<Disposition>> {
    {Some(Bootstrap(n)), Some(Resumable(InitialDoc(n)))}
  }

  // A box on which only this initialization, for network n, has been at work.
  ghost predicate Lawful(b: Box, c: Codec, n: Network) {
    WellFormed(b) &&
    Classify(b, c) in Answers(n) + {Some(Pristine)}
  }

  // A box whose recognized bootstrap belongs to network n.
  ghost predicate Booting(b: Box, c: Codec, n: Network) {
    WellFormed(b) && Classify(b, c) == Some(Bootstrap(n))
  }

  datatype Slot = LedgerSlot | LayoutSlot

  function StageOf(b: Box, s: Slot): Option<File> {
    match s
    case LedgerSlot => b.ledgerStage
    case LayoutSlot => b.layoutStage
  }

  function WithStage(b: Box, s: Slot, f: Option<File>): Box {
    match s
    case LedgerSlot => b.(ledgerStage := f)
    case LayoutSlot => b.(layoutStage := f)
  }

  function Published(b: Box, s: Slot, f: File): Box {
    match s
    case LedgerSlot => b.(ledgerStage := None, ledger := Some(f))
    case LayoutSlot => b.(layoutStage := None, layout := Some(f))
  }

  // Any owner-only stage of at most this size leaves a recognized bootstrap.
  ghost predicate Stageable(b: Box, c: Codec, s: Slot, size: nat, n: Network) {
    forall f: File | SubsetOf(f.mode, MODE_600) && |f.text| <= size :: Booting(WithStage(b, s, Some(f)), c, n)
  }

  // The filesystem under one installer process, which may be killed at any operation.
  class LifecycleFS {
    const codec: Codec
    var box: Box
    var killed: bool
    var calm: bool

    predicate Serene()
      reads this
    {
      calm && !killed
    }

    constructor (codec: Codec, box: Box)
      ensures this.codec == codec && this.box == box && !killed && !calm
    {
      this.codec, this.box, killed, calm := codec, box, false, false;
    }

    // An operation without a durable effect of its own: an inspection, a sync, a test hook.
    method Look() returns (ok: bool)
      modifies this`killed
      ensures ok ==> !killed
      ensures old(killed) ==> killed
      ensures old(Serene()) ==> ok && Serene()
    {
      var acts;
      acts, ok := Attempt();
    }

    method Attempt() returns (acts: bool, ok: bool)
      modifies this`killed
      ensures ok ==> acts && !killed
      ensures old(killed) ==> killed && !acts
      ensures old(Serene()) ==> ok && Serene()
    {
      acts, ok := !killed, !killed;
      if !killed && !calm {
        acts, ok, killed := *, *, *;
        ok := ok && acts && !killed;
      }
    }

    // One filesystem operation that turns the box into `next`: it happens, or it does not.
    method Apply(next: Box, ghost n: Network) returns (ok: bool)
      requires Lawful(next, codec, n)
      modifies this`box, this`killed
      ensures box == old(box) || box == next
      ensures ok ==> box == next && !killed
      ensures old(killed) ==> killed && box == old(box)
      ensures old(Serene()) ==> ok && Serene()
    {
      var acts;
      acts, ok := Attempt();
      if acts {
        box := next;
      }
    }

    // open(O_CREATE|O_EXCL, 0600): the umask may clear any of the requested bits.
    method CreateStage(s: Slot, ghost n: Network) returns (ok: bool)
      requires StageOf(box, s) == None && Booting(box, codec, n) && Stageable(box, codec, s, 0, n)
      modifies this`box, this`killed
      ensures Booting(box, codec, n) && box == WithStage(old(box), s, StageOf(box, s))
      ensures ok ==> StageOf(box, s).Some? && StageOf(box, s).value.text == "" && !killed
      ensures old(killed) ==> killed
      ensures old(Serene()) ==> ok && Serene()
    {
      var umask: bv9 := *;
      ok := Apply(WithStage(box, s, Some(File(MODE_600 & !umask, ""))), n);
    }

    // fchmod(0600).
    method SecureStage(s: Slot, ghost n: Network) returns (ok: bool)
      requires StageOf(box, s).Some? && StageOf(box, s).value.text == ""
      requires Booting(box, codec, n) && Stageable(box, codec, s, 0, n)
      modifies this`box, this`killed
      ensures Booting(box, codec, n)
      ensures ok ==> box == WithStage(old(box), s, Some(File(MODE_600, ""))) && !killed
      ensures old(killed) ==> killed
      ensures old(Serene()) ==> ok && Serene()
    {
      ok := Apply(WithStage(box, s, Some(File(MODE_600, ""))), n);
    }

    // write(2): a failure or a kill can leave any prefix of the data in the stage.
    method WriteStage(s: Slot, data: string, ghost n: Network) returns (ok: bool)
      requires StageOf(box, s) == Some(File(MODE_600, "")) && Booting(box, codec, n)
      requires Stageable(box, codec, s, |data|, n)
      modifies this`box, this`killed
      ensures Booting(box, codec, n)
      ensures ok ==> box == WithStage(old(box), s, Some(File(MODE_600, data))) && !killed
      ensures old(killed) ==> killed
      ensures old(Serene()) ==> ok && Serene()
    {
      var acts;
      acts, ok := Attempt();
      if acts {
        var k: int := *;
        k := if ok || k < 0 || k > |data| then |data| else k;
        box := WithStage(box, s, Some(File(MODE_600, data[..k])));
        assert data[..|data|] == data;
      }
    }

    method Restart()
      modifies this`killed
      ensures !killed
    {
      killed := false;
    }
  }

  // What publishBootstrapPayload finds: the payload is the next one, and nothing is staged.
  ghost predicate Unpublished(b: Box, c: Codec, s: Slot, data: string, n: Network) {
    && Booting(b, c, n) && b.private.Some?
    && b.ledgerStage == None && b.layoutStage == None && b.layout == None
    && match s
       case LedgerSlot => b.ledger == None && |data| <= MAX_STATE_BYTES && c.parse(data) == Some(InitialDoc(n))
       case LayoutSlot => b.ledger.Some? && data == LAYOUT_CONTENT
  }

  lemma StageIsBootstrap(b: Box, c: Codec, s: Slot, data: string, n: Network, f: File)
    requires Unpublished(b, c, s, data, n) && SubsetOf(f.mode, MODE_600) && |f.text| <= |data|
    ensures Booting(WithStage(b, s, Some(f)), c, n)
  {
  }

  // The stage of the payload: created under any umask, given its mode, written.
  method StagePayload(fs: LifecycleFS, s: Slot, data: string, ghost n: Network) returns (ok: bool)
    requires Unpublished(fs.box, fs.codec, s, data, n)
    modifies fs`box, fs`killed
    ensures Booting(fs.box, fs.codec, n)
    ensures ok ==> fs.box == WithStage(old(fs.box), s, Some(File(MODE_600, data))) && !fs.killed
    ensures old(fs.Serene()) ==> ok && fs.Serene()
  {
    forall f: File | SubsetOf(f.mode, MODE_600) && |f.text| <= |data|
      ensures Booting(WithStage(fs.box, s, Some(f)), fs.codec, n)
    {
      StageIsBootstrap(fs.box, fs.codec, s, data, n, f);
    }
    assert Stageable(fs.box, fs.codec, s, |data|, n);
    ok := fs.CreateStage(s, n);
    if !ok { return; }
    ok := fs.SecureStage(s, n);
    if !ok { return; }
    ok := fs.WriteStage(s, data, n);
  }

  // publishBootstrapPayload: the destination appears complete or not at all.
  method PublishBootstrapPayload(fs: LifecycleFS, s: Slot, data: string, ghost n: Network) returns (ok: bool)
    requires Unpublished(fs.box, fs.codec, s, data, n)
    modifies fs`box, fs`killed
    ensures Booting(fs.box, fs.codec, n)
    ensures ok ==> fs.box == Published(old(fs.box), s, File(MODE_600, data)) && !fs.killed
    ensures old(fs.Serene()) ==> ok && fs.Serene()
  {
    ok := StagePayload(fs, s, data, n);
    if !ok { return; }
    ok := fs.Look();
    if !ok { return; }
    ok := fs.Apply(Published(fs.box, s, File(MODE_600, data)), n);
    if !ok { return; }
    ok := fs.Look();
  }

  // secureBootstrapDir: chmod 0700, verify, sync. `dir` selects varLib or private.
  method SecureBootstrapDir(fs: LifecycleFS, isVarLib: bool, ghost n: Network) returns (ok: bool)
    requires Booting(fs.box, fs.codec, n) && if isVarLib then fs.box.varLib.Some? else fs.box.private.Some?
    modifies fs`box, fs`killed
    ensures Booting(fs.box, fs.codec, n)
    ensures fs.box == old(fs.box) || fs.box == WithDir(old(fs.box), isVarLib, MODE_700)
    ensures ok ==> fs.box == WithDir(old(fs.box), isVarLib, MODE_700) && !fs.killed
    ensures old(fs.Serene()) ==> ok && fs.Serene()
  {
    ok := fs.Apply(WithDir(fs.box, isVarLib, MODE_700), n);
    if !ok { return; }
    ok := fs.Look();
    if !ok { return; }
    ok := fs.Look();
  }

  function WithDir(b: Box, isVarLib: bool, mode: bv9): Box {
    if isVarLib then b.(varLib := Some(mode)) else b.(private := Some(mode))
  }

  // createBootstrapDir: mkdir under any umask, secure, sync the parent.
  method CreateBootstrapDir(fs: LifecycleFS, isVarLib: bool, ghost n: Network) returns (ok: bool)
    requires Booting(fs.box, fs.codec, n)
    requires if isVarLib then fs.box.varLib == None else fs.box.varLib.Some? && fs.box.private == None
    modifies fs`box, fs`killed
    ensures Booting(fs.box, fs.codec, n)
    ensures ok ==> fs.box == WithDir(old(fs.box), isVarLib, MODE_700) && !fs.killed
    ensures old(fs.Serene()) ==> ok && fs.Serene()
  {
    var umask: bv9 := *;
    ok := fs.Apply(WithDir(fs.box, isVarLib, MODE_700 & !umask), n);
    if !ok { return; }
    ok := SecureBootstrapDir(fs, isVarLib, n);
    if !ok { return; }
    ok := fs.Look();
  }

  // Both directories exist with mode 0700.
  method EnsureDirectories(fs: LifecycleFS, ghost n: Network) returns (ok: bool)
    requires Booting(fs.box, fs.codec, n)
    modifies fs`box, fs`killed
    ensures Booting(fs.box, fs.codec, n)
    ensures ok ==> fs.box == old(fs.box).(varLib := Some(MODE_700), private := Some(MODE_700)) && !fs.killed
    ensures old(fs.Serene()) ==> ok && fs.Serene()
  {
    ok := fs.Look();
    if !ok { return; }
    if fs.box.varLib == None {
      ok := CreateBootstrapDir(fs, true, n);
    } else {
      ok := SecureBootstrapDir(fs, true, n);
    }
    if !ok { return; }
    ok := fs.Look();
    if !ok { return; }
    if fs.box.private == None {
      ok := CreateBootstrapDir(fs, false, n);
    } else {
      ok := SecureBootstrapDir(fs, false, n);
    }
  }

  // Removes what an interrupted publication left in a stage.
  method ClearStage(fs: LifecycleFS, s: Slot, ghost n: Network) returns (ok: bool)
    requires Booting(fs.box, fs.codec, n)
    modifies fs`box, fs`killed
    ensures Booting(fs.box, fs.codec, n)
    ensures ok ==> fs.box == WithStage(old(fs.box), s, None) && !fs.killed
    ensures old(fs.Serene()) ==> ok && fs.Serene()
  {
    ok := fs.Look();
    if !ok { return; }
    if StageOf(fs.box, s).Some? {
      ok := fs.Apply(WithStage(fs.box, s, None), n);
      if !ok { return; }
      ok := fs.Look();
    }
  }

  // The initial ledger is published, or an already published one is the initial ledger.
  method EnsureLedger(fs: LifecycleFS, n: Network) returns (ok: bool)
    requires Booting(fs.box, fs.codec, n) && Faithful(fs.codec) && fs.box.private.Some?
    modifies fs`box, fs`killed
    ensures Booting(fs.box, fs.codec, n)
    ensures ok ==> fs.box.ledger.Some? && fs.box.ledgerStage == None && !fs.killed
    ensures ok ==> fs.box.varLib == old(fs.box.varLib) && fs.box.private == old(fs.box.private)
    ensures old(fs.Serene()) ==> ok && fs.Serene()
  {
    ok := ClearStage(fs, LedgerSlot, n);
    if !ok { return; }
    ok := fs.Look();
    if !ok { return; }
    if fs.box.ledger == None {
      var data := fs.codec.render(InitialDoc(n));
      ok := PublishBootstrapPayload(fs, LedgerSlot, data, n);
    } else {
      ok := fs.Look();
      if !ok { return; }
      ok := LedgerIs(fs.box.ledger.value, fs.codec, InitialDoc(n));
    }
  }

  method EnsureLayout(fs: LifecycleFS, ghost n: Network) returns (ok: bool)
    requires Booting(fs.box, fs.codec, n) && fs.box.ledger.Some? && fs.box.ledgerStage == None
    modifies fs`box, fs`killed
    ensures Booting(fs.box, fs.codec, n)
    ensures ok ==> fs.box.layout.Some? && fs.box.layoutStage == None && !fs.killed
    ensures ok ==> fs.box.ledger == old(fs.box.ledger) && fs.box.ledgerStage == None
    ensures ok ==> fs.box.varLib == old(fs.box.varLib) && fs.box.private == old(fs.box.private)
    ensures old(fs.Serene()) ==> ok && fs.Serene()
  {
    ok := ClearStage(fs, LayoutSlot, n);
    if !ok { return; }
    ok := fs.Look();
    if !ok { return; }
    if fs.box.layout == None {
      ok := PublishBootstrapPayload(fs, LayoutSlot, LAYOUT_CONTENT, n);
    }
  }

  lemma InitialIsNotDone(n: Network)
    ensures !AllDone(InitialDoc(n))
  {
    NothingIsNotDone();
  }

  // The final modes come first; removing the bootstrap file is the last durable step.
  method FinalizeTree(fs: LifecycleFS, n: Network) returns (ok: bool)
    requires Booting(fs.box, fs.codec, n)
    requires fs.box.layout.Some? && fs.box.private == Some(MODE_700)
    modifies fs`box, fs`killed
    ensures WellFormed(fs.box)
    ensures Classify(fs.box, fs.codec) in Answers(n)
    ensures ok ==> Classify(fs.box, fs.codec) == Some(Resumable(InitialDoc(n)))
    ensures old(fs.Serene()) ==> ok && fs.Serene()
  {
    ok := fs.Apply(fs.box.(varLib := Some(MODE_755)), n);
    if !ok { return; }
    ok := fs.Look();
    if !ok { return; }
    ok := fs.Look();
    if !ok { return; }
    RemovalCompletes(fs.box, fs.codec, n);
    ok := fs.Apply(Unmarked(fs.box), n);
    if !ok { return; }
    ok := fs.Look();
    if !ok { return; }
    ok := fs.Look();
  }

  function Unmarked(b: Box): Box {
    b.(markers := map[])
  }

  // Once the tree has its final modes, removing the bootstrap file hands over to the ledger.
  lemma RemovalCompletes(b: Box, c: Codec, n: Network)
    requires Booting(b, c, n) && b.layout.Some? && b.varLib == Some(MODE_755) && b.private == Some(MODE_700)
    ensures Classify(Unmarked(b), c) == Some(Resumable(InitialDoc(n))) && WellFormed(Unmarked(b))
  {
    InitialIsNotDone(n);
    assert Unmarked(b).markers.Keys == {};
    assert BootstrapTree(b, c, n);
  }

  // completeLifecycleBootstrap: classify again, then finish whatever is still missing.
  method CompleteLifecycleBootstrap(fs: LifecycleFS, n: Network) returns (ledger: Option<Doc>)
    requires Faithful(fs.codec) && WellFormed(fs.box)
    modifies fs`box, fs`killed
    ensures WellFormed(fs.box)
    ensures Classify(old(fs.box), fs.codec) != Some(Bootstrap(n)) ==> ledger == None && fs.box == old(fs.box)
    ensures Classify(old(fs.box), fs.codec) == Some(Bootstrap(n)) ==>
      Classify(fs.box, fs.codec) in Answers(n)
    ensures ledger.Some? ==>
      ledger.value == InitialDoc(n) && Classify(fs.box, fs.codec) == Some(Resumable(ledger.value))
    ensures old(fs.Serene()) && Classify(old(fs.box), fs.codec) == Some(Bootstrap(n)) ==> ledger.Some? && fs.Serene()
  {
    ledger := None;
    var ok := fs.Look();
    if !ok || Classify(fs.box, fs.codec) != Some(Bootstrap(n)) { return; }
    ok := EnsureDirectories(fs, n);
    if !ok { return; }
    ok := EnsureLedger(fs, n);
    if !ok { return; }
    ok := EnsureLayout(fs, n);
    if !ok { return; }
    ok := FinalizeTree(fs, n);
    if ok {
      ledger := Some(InitialDoc(n));
    }
  }

  // initializeLifecycle on a pristine box: the bootstrap file is what commits to a network.
  method InitializeLifecycle(fs: LifecycleFS, n: Network) returns (ledger: Option<Doc>)
    requires Faithful(fs.codec) && WellFormed(fs.box) && Classify(fs.box, fs.codec) == Some(Pristine)
    modifies fs`box, fs`killed
    ensures Lawful(fs.box, fs.codec, n)
    ensures ledger.Some? ==>
      ledger.value == InitialDoc(n) && Classify(fs.box, fs.codec) == Some(Resumable(ledger.value))
    ensures old(fs.Serene()) ==> ledger.Some? && fs.Serene()
  {
    ledger := None;
    var umask: bv9 := *;
    assert fs.box.markers.Keys + {n} == {n};
    var ok := fs.Apply(fs.box.(markers := map[n := File(MODE_600 & !umask, "")]), n);
    if !ok { return; }
    ok := fs.Apply(fs.box.(markers := map[n := File(MODE_600, "")]), n);
    if !ok { return; }
    ok := fs.Look();
    if !ok { return; }
    ok := fs.Look();
    if !ok { return; }
    ledger := CompleteLifecycleBootstrap(fs, n);
  }

  datatype Startup = Started(ledger: Doc) | AlreadyInstalled | Refused

  // The lifecycle part of RunInstall: initialize, resume, or refuse another network.
  method StartInstall(fs: LifecycleFS, requested: Option<Network>) returns (r: Startup)
    requires Faithful(fs.codec) && WellFormed(fs.box)
    modifies fs`box, fs`killed
    ensures WellFormed(fs.box)
    ensures Classify(old(fs.box), fs.codec) == Some(Pristine) ==>
      Lawful(fs.box, fs.codec, Chosen(requested))
    ensures forall n | Classify(old(fs.box), fs.codec) == Some(Bootstrap(n)) ::
      Classify(fs.box, fs.codec) in Answers(n) &&
      (requested.Some? && requested.value != n ==> r == Refused && fs.box == old(fs.box)) &&
      (old(fs.Serene()) && requested in {None, Some(n)} ==> r == Started(InitialDoc(n)))
    ensures Classify(old(fs.box), fs.codec) !in AnyBootstrap() + {Some(Pristine)} ==> fs.box == old(fs.box)
    ensures old(fs.Serene()) && Classify(old(fs.box), fs.codec) == Some(Pristine) ==>
      r == Started(InitialDoc(Chosen(requested)))
    ensures forall d | Classify(old(fs.box), fs.codec) == Some(Resumable(d)) ::
      old(fs.Serene()) && requested == None ==> r == Started(d)
    ensures r.Started? && Classify(old(fs.box), fs.codec) in AnyBootstrap() + {Some(Pristine)} ==>
      Classify(fs.box, fs.codec) == Some(Resumable(r.ledger))
  {
    var ok := fs.Look();
    if !ok { return Refused; }
    match Classify(fs.box, fs.codec)
    case None => r := Refused;
    case Some(Completed(_)) => r := AlreadyInstalled;
    case Some(Pristine) =>
      var ledger := InitializeLifecycle(fs, Chosen(requested));
      r := if ledger.Some? then Started(ledger.value) else Refused;
    case Some(Bootstrap(n)) =>
      if requested.Some? && requested.value != n { return Refused; }
      var ledger := CompleteLifecycleBootstrap(fs, n);
      r := if ledger.Some? then Started(ledger.value) else Refused;
    case Some(Resumable(d)) => r := Recorded(requested, d);
    case Some(CompletionPending(d)) => r := Recorded(requested, d);
  }

  function AnyBootstrap(): set<Option<Disposition>> {
    {Some(Bootstrap(Mainnet)), Some(Bootstrap(Testnet4)), Some(Bootstrap(PublicSignet))}
  }

  function Recorded(requested: Option<Network>, d: Doc): Startup {
    if requested.Some? && Name(requested.value) != d.network then Refused else Started(d)
  }

  // The network a start on a pristine box commits to.
  function Chosen(requested: Option<Network>): Network {
    if requested.Some? then requested.value else Mainnet
  }

  // What the boxes after a sequence of starts look like: pristine until the start `first`
  // commits to network n, and that network's bootstrap or its initial ledger ever after.
  ghost predicate Committed(boxes: seq<Box>, c: Codec, requests: seq<Option<Network>>, first: nat, n: Network) {
    && |boxes| == |requests| && first <= |boxes|
    && (forall k | 0 <= k < first :: Classify(boxes[k], c) == Some(Pristine))
    && (forall k | first <= k < |boxes| ::
          Classify(boxes[k], c) in Answers(n))
    && n == if first < |requests| then Chosen(requests[first]) else Mainnet
  }

  // One start, interrupted anywhere, on a pristine box or one committed to n.
  method OneStart(fs: LifecycleFS, request: Option<Network>, ghost n: Network)
    requires Faithful(fs.codec) && WellFormed(fs.box)
    requires Classify(fs.box, fs.codec) in Answers(n) + {Some(Pristine)}
    modifies fs
    ensures WellFormed(fs.box)
    ensures if old(Classify(fs.box, fs.codec)) == Some(Pristine)
            then Classify(fs.box, fs.codec) in Answers(Chosen(request)) + {Some(Pristine)}
            else Classify(fs.box, fs.codec) in Answers(n)
  {
    fs.calm := false;
    var attempt := StartInstall(fs, request);
    fs.Restart();
  }

  // One start in which nothing fails, without a requested network, reaches the ledger of the
  // committed one.
  method CalmStart(fs: LifecycleFS, ghost n: Network) returns (r: Startup)
    requires Faithful(fs.codec) && WellFormed(fs.box)
    requires Classify(fs.box, fs.codec) in Answers(n) ||
             (Classify(fs.box, fs.codec) == Some(Pristine) && n == Mainnet)
    modifies fs
    ensures r == Started(InitialDoc(n)) && Classify(fs.box, fs.codec) == Some(Resumable(InitialDoc(n)))
  {
    fs.calm := true;
    fs.Restart();
    r := StartInstall(fs, None);
  }

  // From a pristine box, after any starts each interrupted anywhere, the classifier has only
  // ever answered with the first committed network, never an error or another network, and
  // one calm resume finishes the bootstrap.
  method AnyInterruptedStarts(fs: LifecycleFS, requests: seq<Option<Network>>)
    returns (ghost boxes: seq<Box>, ghost first: nat, ghost n: Network, r: Startup)
    requires Faithful(fs.codec) && WellFormed(fs.box) && Classify(fs.box, fs.codec) == Some(Pristine)
    modifies fs
    ensures Committed(boxes, fs.codec, requests, first, n)
    ensures r == Started(InitialDoc(n)) && Classify(fs.box, fs.codec) == Some(Resumable(InitialDoc(n)))
  {
    boxes, first, n := [], 0, Mainnet;
    for i := 0 to |requests|
      invariant WellFormed(fs.box) && Committed(boxes, fs.codec, requests[..i], first, n)
      invariant Classify(fs.box, fs.codec) == if i == 0 then Some(Pristine) else Classify(boxes[i - 1], fs.codec)
    {
      assert requests[..i + 1][..i] == requests[..i];
      assert first == i <==> Classify(fs.box, fs.codec) == Some(Pristine);
      OneStart(fs, requests[i], n);
      if first == i {
        first := if Classify(fs.box, fs.codec) == Some(Pristine) then i + 1 else i;
        n := if first == i then Chosen(requests[i]) else Mainnet;
      }
      boxes := boxes + [fs.box];
    }
    assert requests[..|requests|] == requests;
    r := CalmStart(fs, n);
  }
}
