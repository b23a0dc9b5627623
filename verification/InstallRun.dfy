/**
 Whole install runs (RunInstall in internal/installer/setup.go, with engine.go,
 identity.go and passwordpending.go): what the ledger and the password-pending marker hold
 after any sequence of attended, unattended and bake runs, each failing or killed anywhere,
 and whether a generated admin password can be lost before anybody has seen it.
 */
module InstallRun {
  import opened Basics
  import opened InstallLedger
  import opened InstallEngine

  // The admin password in force. Generated passwords are numbered as they are made.
  datatype Credential = NoPassword | Chosen | Generated(serial: nat)

  datatype Mode = Attended | Unattended | UnattendedBake

  datatype RunEnd = Installed | AlreadyInstalled | BakeDone | Stopped

  // Which of a run's own lstats of the marker fail: the classifier's, the wizard's check, the
  // decision to generate a password, the decision to re-apply it, and the one before the
  // terminal ledger.
  datatype Blind = Blind(classify: bool, wizard: bool, decide: bool, reapply: bool, publish: bool)

  const SIGHTED := Blind(false, false, false, false, false)

  // The configuration directory, which is made by its first save: missing, made but not yet
  // given to its group, or as it should be.
  datatype ConfigDir = NoDir | RootOnly | Owned

  datatype Sight = Present | Absent | Unreadable

  // The box under one installer process. `full` is its complete step list.
  class Box {
    const full: seq<Step>
    ghost const valid: iset<Doc>  // the ledgers that validateLedger accepts
    var saved: Doc                // the ledger on disk
    var marker: bool              // the password-pending marker
    var admin: Credential
    var shown: set<nat>           // generated passwords that were printed
    var nextSerial: nat
    var configDir: ConfigDir
    var killed: bool
    var calm: bool
    var blind: Blind
    ghost var missed: bool        // the last lstat before a terminal ledger missed the marker
    ghost var trace: seq<Execution>   // what the current run has executed

    ghost predicate ValidLedger(d: Doc) {
      ValidDoc(d, Keys(full), Keys(BakeSlice(full)))
    }

    predicate Undelivered()
      reads this
    {
      admin.Generated? && admin.serial !in shown
    }

    // Since `before`, at most the password in force was printed.
    predicate PrintedInForce(before: set<nat>)
      reads this
    {
      before <= shown <= before + if admin.Generated? then {admin.serial} else {}
    }

    ghost predicate Shaped() {
      Profile(full) && forall d {:trigger ValidLedger(d)} :: d in valid <==> ValidLedger(d)
    }

    lemma Judge(d: Doc)
      requires Shaped()
      ensures d in valid <==> ValidLedger(d)
    {
    }

    // The ledger on disk is one that validateLedger accepts.
    ghost predicate LedgerOk()
      reads this`saved
    {
      Shaped() && saved in valid
    }

    ghost predicate Valid()
      reads this
    {
      && saved.steps.Some?
      && (Undelivered() ==> marker || IdentityAccess !in saved.steps.value)
      && (saved.status == Complete ==> !Undelivered() || missed)
      && (admin.Generated? ==> admin.serial < nextSerial)
      && (forall s | s in shown :: s < nextSerial)
    }

    // Nothing fails, and no half-made configuration directory makes it fail.
    predicate Serene()
      reads this
    {
      calm && !killed && configDir != RootOnly
    }

    constructor (full: seq<Step>, network: string)
      requires Profile(full) && ValidNetwork(network)
      ensures Valid() && LedgerOk() && this.full == full
      ensures saved == NewDoc(network, "tor") && !marker && admin == NoPassword
      ensures !killed && !calm && !missed && trace == [] && shown == {} && configDir == NoDir
    {
      NewDocValid(network, "tor", Keys(full), Keys(BakeSlice(full)));
      this.full := full;
      valid := iset d | ValidDoc(d, Keys(full), Keys(BakeSlice(full)));
      saved := NewDoc(network, "tor");
      marker, admin, shown, nextSerial := false, NoPassword, {}, 0;
      killed, calm, blind, missed, trace, configDir := false, false, SIGHTED, false, [], NoDir;
    }

    method Attempt() returns (acts: bool, ok: bool)
      modifies this`killed
      ensures ok ==> acts && !killed
      ensures old(killed) ==> killed && !acts
      ensures old(calm && !killed) ==> ok && !killed
    {
      acts, ok := !killed, !killed;
      if !killed && !calm {
        acts, ok, killed := *, *, *;
        ok := ok && acts && !killed;
      }
    }

    // Anything whose effect is not part of this model.
    method Look() returns (ok: bool)
      modifies this`killed
      ensures ok ==> !killed
      ensures old(killed) ==> killed
      ensures old(Serene()) ==> ok && Serene()
    {
      var acts;
      acts, ok := Attempt();
    }

    // mkdir, as the first save of the configuration makes it: root's alone.
    method MakeConfigDir() returns (ok: bool)
      requires configDir == NoDir
      modifies this`configDir, this`killed
      ensures configDir in {NoDir, RootOnly} && (ok ==> configDir == RootOnly && !killed)
      ensures old(killed) ==> killed
      ensures old(calm && !killed) ==> ok
    {
      var acts;
      acts, ok := Attempt();
      if acts {
        configDir := RootOnly;
      }
    }

    // config.Save: only a directory that it has just made is given to its group; one that a
    // kill or a failing chown left with root alone is refused ever after.
    method SaveConfig() returns (ok: bool)
      modifies this`configDir, this`killed
      ensures old(configDir) == RootOnly ==> !ok && configDir == RootOnly
      ensures ok ==> configDir == Owned && !killed
      ensures old(killed) ==> killed
      ensures old(Serene()) ==> ok && Serene()
    {
      if configDir == NoDir {
        ok := MakeConfigDir();
        if !ok { return; }
        var acts;
        acts, ok := Attempt();
        if acts {
          configDir := Owned;
        }
        if !ok { return; }
      } else if configDir == RootOnly {
        return false;
      }
      ok := Look();
    }

    // save: refuses an invalid document, replaces the file as a whole.
    method Save(doc: Doc) returns (ok: bool)
      requires Valid() && LedgerOk()
      requires doc.steps.Some? && Undelivered() && !marker ==> IdentityAccess !in doc.steps.value
      requires doc.status == Complete ==> !Undelivered() || missed
      modifies this`saved, this`killed
      ensures Valid() && LedgerOk() && (saved == old(saved) || saved == doc)
      ensures ok ==> saved == doc && !killed
      ensures old(killed) ==> killed
      ensures old(Serene()) ==> Serene() && ok == (doc in valid)
    {
      Judge(doc);
      var accepted := ValidateLedger(doc, Keys(full), Keys(BakeSlice(full)));
      if !accepted {
        return false;
      }
      var acts;
      acts, ok := Attempt();
      if acts {
        saved := doc;
      }
    }

    method MarkPasswordPending() returns (ok: bool)
      requires Valid()
      modifies this`marker, this`killed
      ensures Valid() && (old(marker) ==> marker)
      ensures ok ==> marker && !killed
      ensures old(killed) ==> killed
      ensures old(Serene()) ==> ok && Serene()
    {
      var acts;
      acts, ok := Attempt();
      if acts {
        marker := true;
      }
    }

    // lstat of the marker.
    method Lstat(fails: bool) returns (r: Sight)
      ensures r == Present ==> marker
      ensures r == Absent ==> !marker
      ensures fails ==> r == Unreadable
      ensures calm && !fails ==> r != Unreadable
    {
      var blinded: bool := *;
      r := if fails || (!calm && blinded) then Unreadable else if marker then Present else Absent;
    }

    // passwordPending: lstat succeeding means present, every error means absent.
    method PasswordPending(fails: bool) returns (pending: bool)
      ensures pending ==> marker
      ensures fails ==> !pending
      ensures calm ==> pending == (marker && !fails)
    {
      var r := Lstat(fails);
      pending := r == Present;
    }

    // clearPasswordPendingMarkerStrict, and the best-effort variant of the node TUI.
    method ClearMarker() returns (ok: bool)
      requires Valid() && !Undelivered()
      modifies this`marker, this`killed
      ensures Valid() && (marker ==> old(marker))
      ensures ok ==> !marker && !killed
      ensures old(killed) ==> killed
      ensures old(Serene()) ==> ok && Serene()
    {
      var acts;
      acts, ok := Attempt();
      if acts {
        marker := false;
      }
    }

    // A generated password may only be put in force while it is still owed: under the marker,
    // or before identity.access is recorded.
    method SetUserPassword(pw: Credential) returns (ok: bool)
      requires Valid()
      requires pw.Generated? ==>
        pw.serial < nextSerial && (marker || IdentityAccess !in saved.steps.value) && saved.status != Complete
      modifies this`admin, this`killed
      ensures Valid() && (admin == old(admin) || admin == pw)
      ensures ok ==> admin == pw && !killed
      ensures old(killed) ==> killed
      ensures old(Serene()) ==> ok && Serene()
    {
      var acts;
      acts, ok := Attempt();
      if acts {
        admin := pw;
      }
    }

    method GeneratePassword() returns (ok: bool, serial: nat)
      requires Valid()
      modifies this`nextSerial, this`killed
      ensures Valid() && serial < nextSerial && nextSerial == old(nextSerial) + 1
      ensures ok ==> !killed
      ensures old(killed) ==> killed
      ensures serial !in shown && admin != Generated(serial)
      ensures old(Serene()) ==> ok && Serene()
    {
      serial := nextSerial;
      nextSerial := nextSerial + 1;
      var acts;
      acts, ok := Attempt();
    }

    // Only the password in force is ever printed.
    method PrintGeneratedPassword(serial: nat) returns (ok: bool)
      requires Valid() && admin == Generated(serial)
      modifies this`shown, this`killed
      ensures Valid() && old(shown) <= shown && shown <= old(shown) + {serial}
      ensures ok ==> shown == old(shown) + {serial} && !killed
      ensures old(killed) ==> killed
      ensures old(Serene()) ==> ok && Serene()
    {
      var acts;
      acts, ok := Attempt();
      if acts {
        shown := shown + {serial};
      }
    }

    method Restart()
      requires Valid()
      modifies this`killed, this`calm, this`blind
      ensures Valid() && !killed && !calm
    {
      killed, calm, blind := false, false, *;
    }
  }

  // InstallDecisions, as far as the password goes.
  class Decisions {
    var password: Credential
    var applied: bool

    constructor ()
      ensures password == NoPassword && !applied
    {
      password, applied := NoPassword, false;
    }
  }

  // applyIdentityAccess: the password is applied first and marked as owed right after.
  method ApplyIdentityAccess(box: Box, dec: Decisions) returns (ok: bool)
    requires box.Valid() && IdentityAccess !in box.saved.steps.value && box.saved.status != Complete
    requires dec.password != NoPassword && (dec.password.Generated? ==> dec.password.serial < box.nextSerial)
    modifies box`admin, box`marker, box`killed, dec`applied
    ensures box.Valid() && (old(box.marker) ==> box.marker)
    ensures old(box.killed) ==> box.killed
    ensures dec.applied ==> box.admin == dec.password || old(dec.applied)
    ensures ok ==> dec.applied && box.admin == dec.password && (dec.password.Generated? ==> box.marker) && !box.killed
    ensures old(box.Serene()) ==> ok && box.Serene()
    ensures dec.password == Chosen ==> box.marker == old(box.marker)
  {
    ok := box.Look();
    if !ok { return; }
    ok := box.SetUserPassword(dec.password);
    if !ok { return; }
    dec.applied := true;
    if dec.password.Generated? {
      ok := box.MarkPasswordPending();
      if !ok { return; }
    }
    ok := box.Look();
  }

  /* ---- One pass over the steps ---- */

  // The installer has read the ledger of an unfinished lifecycle.
  ghost predicate Opened(box: Box, ledger: Ledger)
    reads box, ledger
  {
    && box.Valid() && box.LedgerOk() && box.saved.status != Complete
    && ledger.full == Keys(box.full) && ledger.doc == box.saved
  }

  // ... and the cache size is decided, so steps may be recorded.
  ghost predicate Running(box: Box, ledger: Ledger)
    reads box, ledger
  {
    Opened(box, ledger) && box.saved.dbCache.Some?
  }

  // One step's own work: setting up the administrator's access, or what leaves the password
  // alone.
  method ExecuteStep(box: Box, dec: Decisions, key: StepKey) returns (ok: bool)
    requires box.Valid() && box.saved.status != Complete
    requires dec.password != NoPassword && (dec.password.Generated? ==> dec.password.serial < box.nextSerial)
    requires key == IdentityAccess ==> IdentityAccess !in box.saved.steps.value
    modifies box`admin, box`marker, box`killed, dec`applied
    ensures box.Valid()
    ensures old(box.killed) ==> box.killed
    ensures dec.applied ==> box.admin == dec.password || old(dec.applied)
    ensures key != IdentityAccess ==>
      dec.applied == old(dec.applied) && box.admin == old(box.admin) && box.marker == old(box.marker)
    ensures dec.password == Chosen ==> box.marker == old(box.marker)
    ensures ok && key == IdentityAccess ==>
      dec.applied && box.admin == dec.password && (dec.password.Generated? ==> box.marker)
    ensures old(box.Serene()) ==> ok && box.Serene()
  {
    if key == IdentityAccess {
      ok := ApplyIdentityAccess(box, dec);
    } else {
      ok := box.Look();
    }
  }

  // A finished step becomes durable: MarkDone, then the whole document is published.
  method RecordStep(box: Box, ledger: Ledger, key: StepKey, version: string) returns (ok: bool)
    requires Running(box, ledger)
    requires Accepted(box.full, ledger.Done() + {key}) && key in Prefix(Keys(box.full), |box.full|)
    requires key == IdentityAccess && box.Undelivered() ==> box.marker
    modifies box`saved, box`killed, ledger
    ensures box.Valid() && box.LedgerOk() && box.saved.status != Complete && box.saved.dbCache.Some?
    ensures old(box.killed) ==> box.killed
    ensures ok ==> Running(box, ledger) && ledger.Done() == old(ledger.Done()) + {key}
    ensures box.saved.steps.value.Keys in {old(ledger.Done()), old(ledger.Done()) + {key}}
    ensures old(box.Serene()) && !Blank(version) ==> ok && box.Serene()
  {
    ok := ledger.MarkDone(key, version);
    if !ok { return; }
    assert ledger.Done() == old(ledger.Done()) + {key};
    box.Judge(box.saved);
    StepKeepsDocValid(box.saved, Keys(box.full), Keys(BakeSlice(box.full)), key, version);
    box.Judge(ledger.doc);
    ok := box.Save(ledger.doc);
  }

  // runIndex: skip by the plan, or execute, record and publish one step.
  method RunIndex(box: Box, ledger: Ledger, dec: Decisions, key: StepKey, run: bool, version: string)
    returns (ok: bool, ghost ran: bool)
    requires Running(box, ledger)
    requires dec.password != NoPassword && (dec.password.Generated? ==> dec.password.serial < box.nextSerial)
    requires run ==> Accepted(box.full, ledger.Done() + {key}) && key in Prefix(Keys(box.full), |box.full|)
    requires run && key == IdentityAccess ==> IdentityAccess !in ledger.Done()
    modifies box`saved, box`admin, box`marker, box`killed, box`trace, dec`applied, ledger
    ensures box.Valid() && box.LedgerOk() && box.saved.status != Complete && box.saved.dbCache.Some?
    ensures old(box.killed) ==> box.killed
    ensures dec.applied ==> box.admin == dec.password || old(dec.applied)
    ensures !run ==> ok && box.saved == old(box.saved)
    ensures box.trace == old(box.trace) + if run then [Execution(key, ran)] else []
    ensures ok && run ==> ran
    ensures !run || key != IdentityAccess ==>
      dec.applied == old(dec.applied) && box.admin == old(box.admin) && box.marker == old(box.marker)
    ensures dec.password == Chosen ==> box.marker == old(box.marker)
    ensures ok && run && key == IdentityAccess ==>
      dec.applied && box.admin == dec.password && (dec.password.Generated? ==> box.marker)
    ensures ok ==> Running(box, ledger) && ledger.Done() == old(ledger.Done()) + if run then {key} else {}
    ensures box.saved.steps.value.Keys in {old(ledger.Done()), old(ledger.Done()) + {key}}
    ensures old(box.Serene()) && !Blank(version) ==> ok && box.Serene()
  {
    ran := false;
    if !run {
      return true, ran;
    }
    ok := ExecuteStep(box, dec, key);
    ran := ok;
    box.trace := box.trace + [Execution(key, ok)];
    if !ok { return; }
    ok := RecordStep(box, ledger, key, version);
  }

  // A pass that planned from `done`, began with this marker and password, and has brought
  // the ledger to `now`.
  ghost predicate InPass(box: Box, ledger: Ledger, dec: Decisions, bakeOnly: bool, now: set<StepKey>,
                         done: set<StepKey>, marker: bool, admin: Credential)
    reads box, ledger, dec
  {
    && Running(box, ledger) && ledger.Done() == now
    && dec.password != NoPassword && (dec.password.Generated? ==> dec.password.serial < box.nextSerial)
    && (dec.applied ==> IdentityAccess in now)
    && Applied(box, dec, bakeOnly, IdentityAccess in now, done, marker, admin)
  }

  // What a pass has done to the password so far.
  ghost predicate Applied(box: Box, dec: Decisions, bakeOnly: bool, recorded: bool,
                          done: set<StepKey>, marker: bool, admin: Credential)
    reads box, dec
  {
    && (dec.applied ==> box.admin == dec.password && !bakeOnly)
    && (dec.password == Chosen ==> box.marker == marker)
    && (recorded && IdentityAccess !in done ==> dec.applied && (dec.password.Generated? ==> box.marker))
    && (bakeOnly || IdentityAccess in done ==> !dec.applied && box.admin == admin && box.marker == marker)
  }

  // The i-th step of a pass, which takes the ledger from the record of i steps to that of i + 1.
  method RunPlanned(box: Box, ledger: Ledger, dec: Decisions, bakeOnly: bool, i: nat, step: Step, run: bool,
                    version: string, ghost done: set<StepKey>, ghost marker: bool, ghost admin: Credential)
    returns (ok: bool, ghost recorded: bool)
    requires i < |StepsOf(box.full, bakeOnly)| && step == StepsOf(box.full, bakeOnly)[i]
    requires Accepted(box.full, done) && run == Planned(StepsOf(box.full, bakeOnly), done, i)
    requires InPass(box, ledger, dec, bakeOnly, Recorded(StepsOf(box.full, bakeOnly), done, i), done, marker, admin)
    requires SafeTrace(StepsOf(box.full, bakeOnly), box.trace)
    requires RanThrough(StepsOf(box.full, bakeOnly), done, i, box.trace)
    modifies box`saved, box`admin, box`marker, box`killed, box`trace, dec`applied, ledger
    ensures old(box.killed) ==> box.killed
    ensures box.Valid() && box.LedgerOk() && box.saved.status != Complete && box.saved.dbCache.Some?
    ensures box.saved.steps.value.Keys ==
            Recorded(StepsOf(box.full, bakeOnly), done, if recorded then i + 1 else i)
    ensures Applied(box, dec, bakeOnly, false, done, marker, admin)
    ensures SafeTrace(StepsOf(box.full, bakeOnly), box.trace)
    ensures ok ==>
      && recorded && RanThrough(StepsOf(box.full, bakeOnly), done, i + 1, box.trace)
      && InPass(box, ledger, dec, bakeOnly, Recorded(StepsOf(box.full, bakeOnly), done, i + 1), done, marker, admin)
    ensures old(box.Serene()) && !Blank(version) ==> ok && box.Serene()
  {
    StepRecords(box.full, done, bakeOnly, i);
    ghost var now := ledger.Done();
    ghost var ran;
    ok, ran := RunIndex(box, ledger, dec, step.key, run, version);
    recorded := ok || box.saved.steps.value.Keys != now;
    TraceStep(box.full, done, bakeOnly, i, old(box.trace), box.trace, ran);
  }

  // The steps of one pass, in order, until one fails or an operator interrupts. The ledger
  // on disk ends with exactly what the first n steps of the pass record.
  method RunSteps(box: Box, ledger: Ledger, dec: Decisions, bakeOnly: bool, version: string)
    returns (ok: bool, ghost n: nat)
    requires Running(box, ledger) && !dec.applied && box.trace == []
    requires dec.password != NoPassword && (dec.password.Generated? ==> dec.password.serial < box.nextSerial)
    modifies box`saved, box`admin, box`marker, box`killed, box`trace, dec`applied, ledger
    ensures box.Valid() && box.LedgerOk() && box.saved.status != Complete && box.saved.dbCache.Some?
    ensures old(box.killed) ==> box.killed
    ensures n <= |StepsOf(box.full, bakeOnly)|
    ensures box.saved.steps.value.Keys == Recorded(StepsOf(box.full, bakeOnly), old(ledger.Done()), n)
    ensures Applied(box, dec, bakeOnly, false, old(ledger.Done()), old(box.marker), old(box.admin))
    ensures ok ==>
      n == |StepsOf(box.full, bakeOnly)| &&
      InPass(box, ledger, dec, bakeOnly, Recorded(StepsOf(box.full, bakeOnly), old(ledger.Done()), n),
             old(ledger.Done()), old(box.marker), old(box.admin))
    // wherever it stopped, no step ran without the gates and group members before it
    ensures SafeTrace(StepsOf(box.full, bakeOnly), box.trace)
    ensures ok ==> RanThrough(StepsOf(box.full, bakeOnly), old(ledger.Done()), n, box.trace)
    ensures old(box.Serene()) && !Blank(version) ==> ok && box.Serene()
  {
    ghost var done, marker, admin := ledger.Done(), box.marker, box.admin;
    var steps := box.full;
    if bakeOnly {
      steps := FilterBake(box.full);
    }
    box.Judge(box.saved);
    var plan := PlanRun(steps, ledger.Done());
    n := 0;
    for i := 0 to |steps|
      invariant n == i
      invariant InPass(box, ledger, dec, bakeOnly, Recorded(steps, done, i), done, marker, admin)
      invariant SafeTrace(steps, box.trace) && RanThrough(steps, done, i, box.trace)
      invariant old(box.killed) ==> box.killed
      invariant old(box.Serene()) && !Blank(version) ==> box.Serene()
    {
      var interrupted: bool := *;
      if interrupted && !box.calm {
        return false, n;
      }
      ghost var recorded;
      ok, recorded := RunPlanned(box, ledger, dec, bakeOnly, i, steps[i], plan[i], version, done, marker, admin);
      n := if recorded then i + 1 else i;
      if !ok {
        return false, n;
      }
    }
    ok := true;
  }

  predicate AllDone(box: Box)
    reads box
  {
    box.saved.steps.Some? && AllStepsDone(box.saved.steps.value, Keys(box.full))
  }

  predicate IdentityRecorded(box: Box)
    reads box
  {
    box.saved.steps.Some? && IdentityAccess in box.saved.steps.value
  }

  // A pass, as far as the rest of a run depends on it.
  method RunPass(box: Box, ledger: Ledger, dec: Decisions, bakeOnly: bool, version: string) returns (ok: bool)
    requires Running(box, ledger) && !dec.applied && box.trace == []
    requires dec.password != NoPassword && (dec.password.Generated? ==> dec.password.serial < box.nextSerial)
    modifies box`saved, box`admin, box`marker, box`killed, box`trace, dec`applied, ledger
    ensures box.Valid() && box.LedgerOk() && box.saved.status != Complete
    ensures SafeTrace(StepsOf(box.full, bakeOnly), box.trace)
    ensures ok ==> Running(box, ledger)
    ensures ok && !bakeOnly ==> AllDone(box) && dec.applied == !old(IdentityRecorded(box))
    ensures dec.applied ==> box.admin == dec.password
    ensures dec.password == Chosen ==> box.marker == old(box.marker)
    ensures bakeOnly || old(IdentityRecorded(box)) ==>
      !dec.applied && box.admin == old(box.admin) && box.marker == old(box.marker)
    ensures ok && dec.applied && dec.password.Generated? ==> box.marker
    ensures old(box.Serene()) && !Blank(version) ==> ok && box.Serene()
  {
    box.Judge(box.saved);
    ghost var n;
    ghost var done := ledger.Done();
    ok, n := RunSteps(box, ledger, dec, bakeOnly, version);
    if ok && !bakeOnly {
      FullPassRecordsAll(box.full, done);
      IdentityIsAStep(box.full);
    }
  }

  // What executing step i of a pass records, and that the validator takes it.
  lemma StepRecords(full: seq<Step>, done: set<StepKey>, bakeOnly: bool, i: nat)
    requires Profile(full) && Accepted(full, done) && i < |StepsOf(full, bakeOnly)|
    ensures var steps := StepsOf(full, bakeOnly);
            && Recorded(steps, done, i + 1) ==
               Recorded(steps, done, i) + (if Planned(steps, done, i) then {steps[i].key} else {})
            && Accepted(full, Recorded(steps, done, i + 1))
            && steps[i].key in Prefix(Keys(full), |full|)
            && (steps[i].key == IdentityAccess && Planned(steps, done, i) ==>
                  !bakeOnly && IdentityAccess !in Recorded(steps, done, i) && IdentityAccess !in done)
  {
    var steps := StepsOf(full, bakeOnly);
    RecordedNext(steps, done, i);
    PassIsAcceptedThroughout(full, done, bakeOnly, i + 1);
    SliceWithinFull(full, bakeOnly, i);
    if steps[i].key == IdentityAccess && Planned(steps, done, i) {
      IdentityRunsOnce(full, done, bakeOnly, i);
    }
  }

  /* ---- Completion ---- */

  // prepareInstallCompletion, as far as later runs depend on it.
  method PrepareInstallCompletion(box: Box, ledger: Ledger) returns (ok: bool)
    requires Running(box, ledger)
    modifies box`killed, box`configDir
    ensures old(box.killed) ==> box.killed
    ensures ok ==> AllStepsDone(box.saved.steps.value, Keys(box.full)) && !box.killed
    ensures old(box.configDir) == RootOnly ==> !ok && box.configDir == RootOnly
    ensures old(box.Serene()) ==> box.Serene() && ok == AllStepsDone(box.saved.steps.value, Keys(box.full))
  {
    if !AllStepsDone(ledger.doc.steps.value, Keys(box.full)) || ledger.doc.dbCache == None {
      return false;
    }
    ok := box.Look();
    if !ok { return; }
    ok := box.SaveConfig();
    if !ok { return; }
    ok := box.Look();
  }

  // publishTerminalLedger: never while a pending marker is seen. `missed` keeps whether a
  // present one was not.
  method PublishTerminalLedger(box: Box, ledger: Ledger) returns (ok: bool)
    requires Running(box, ledger)
    modifies box`saved, box`killed, box`missed, ledger
    ensures box.Valid() && box.LedgerOk()
    ensures old(box.killed) ==> box.killed
    ensures ok ==> box.saved.status == Complete && !box.killed
    ensures box.missed && !old(box.missed) ==> box.marker && (box.blind.publish || !box.calm)
    ensures old(box.Serene()) ==> box.Serene()
    ensures old(box.Serene() && AllDone(box)) ==> ok == (box.blind.publish || !box.marker)
    ensures !ok && old(box.Serene()) ==> box.saved == old(box.saved)
  {
    var pending := box.PasswordPending(box.blind.publish);
    if pending {
      return false;
    }
    box.missed := box.marker;
    ok := ledger.MarkComplete();
    if !ok { return; }
    IdentityIsAStep(box.full);
    box.Judge(box.saved);
    box.Judge(ledger.doc);
    ok := box.Save(ledger.doc);
  }

  predicate NeedsPasswordReapply(generated: bool, appliedThisPass: bool, pendingOnDisk: bool) {
    generated && !appliedThisPass && pendingOnDisk
  }

  // What a run that nothing else disturbs will do about its generated password.
  predicate Delivers(box: Box, dec: Decisions)
    reads box, dec
  {
    dec.password.Generated? && (dec.applied || (box.marker && !box.blind.reapply))
  }

  // Nothing about the password changed since.
  twostate predicate Untouched(box: Box)
    reads box
  {
    box.admin == old(box.admin) && box.shown == old(box.shown) && box.marker == old(box.marker)
  }

  // Re-applies a password that is still owed, prints what is in force, clears the marker.
  method DeliverPassword(box: Box, dec: Decisions) returns (ok: bool)
    requires box.Valid() && box.saved.status != Complete
    requires dec.password.Generated? ==> dec.password.serial < box.nextSerial
    requires dec.applied ==> box.admin == dec.password
    modifies box`admin, box`marker, box`shown, box`killed, dec`applied
    ensures box.Valid()
    ensures old(box.killed) ==> box.killed
    ensures box.PrintedInForce(old(box.shown))
    ensures old(box.Serene()) ==> ok && box.Serene()
    ensures old(box.Serene() && Delivers(box, dec)) ==> !box.marker && !box.Undelivered()
    ensures old(box.Serene() && !Delivers(box, dec)) ==> Untouched(box)
    ensures dec.password == NoPassword ==> Untouched(box)
  {
    var pending := box.PasswordPending(box.blind.reapply);
    if NeedsPasswordReapply(dec.password.Generated?, dec.applied, pending) {
      ok := box.SetUserPassword(dec.password);
      if !ok { return; }
      dec.applied := true;
    }
    if dec.password.Generated? && dec.applied {
      ok := box.PrintGeneratedPassword(dec.password.serial);
      if !ok { return; }
      ok := box.ClearMarker();
      if !ok { return; }
    }
    ok := true;
  }

  // The password is delivered before the ledger is completed.
  method DeliverThenPublish(box: Box, ledger: Ledger, dec: Decisions) returns (ok: bool)
    requires Running(box, ledger) && AllDone(box)
    requires dec.password.Generated? ==> dec.password.serial < box.nextSerial
    requires dec.applied ==> box.admin == dec.password
    modifies box`saved, box`admin, box`marker, box`shown, box`killed, box`missed, ledger, dec`applied
    ensures box.Valid() && box.LedgerOk()
    ensures ok ==> box.saved.status == Complete
    ensures box.PrintedInForce(old(box.shown))
    ensures old(box.Serene() && Delivers(box, dec)) ==> ok && !box.Undelivered()
    ensures old(box.Serene() && !Delivers(box, dec)) ==> Untouched(box) && ok == (box.blind.publish || !box.marker)
  {
    ok := DeliverPassword(box, dec);
    if !ok { return; }
    ok := PublishTerminalLedger(box, ledger);
  }

  // The unattended end of a run.
  method CompleteUnattended(box: Box, ledger: Ledger, dec: Decisions) returns (ok: bool)
    requires Running(box, ledger)
    requires dec.password.Generated? ==> dec.password.serial < box.nextSerial
    requires dec.applied ==> box.admin == dec.password
    modifies box`saved, box`admin, box`marker, box`shown, box`killed, box`missed, ledger, dec`applied, box`configDir
    ensures box.Valid() && box.LedgerOk()
    ensures old(box.configDir) == RootOnly ==> box.configDir == RootOnly && box.saved.status != Complete
    ensures ok ==> box.saved.status == Complete
    ensures box.PrintedInForce(old(box.shown))
    ensures old(box.Serene() && AllDone(box) && Delivers(box, dec)) ==> ok && !box.Undelivered()
    ensures old(box.Serene() && AllDone(box) && !Delivers(box, dec)) ==>
      Untouched(box) && ok == (box.blind.publish || !box.marker)
  {
    ok := PrepareInstallCompletion(box, ledger);
    if !ok { return; }
    ok := DeliverThenPublish(box, ledger, dec);
  }

  /* ---- The run ---- */

  // persistDbCache.
  method PersistDbCache(box: Box, ledger: Ledger, v: int) returns (ok: bool)
    requires Opened(box, ledger)
    modifies box`saved, box`killed, ledger
    ensures box.Valid() && box.LedgerOk() && box.saved.status != Complete
    ensures old(box.killed) ==> box.killed
    ensures box.saved.steps == old(box.saved).steps
    ensures ok ==> Running(box, ledger)
    ensures old(box.Serene()) && ValidDbCache(v) && old(box.saved).dbCache in {None, Some(v)} ==> ok && box.Serene()
  {
    ok := ledger.SetDbCache(v);
    if !ok { return; }
    box.Judge(box.saved);
    box.Judge(ledger.doc);
    ok := box.Save(ledger.doc);
  }

  // The cache size is recorded before the first step can be.
  method DecideDbCache(box: Box, ledger: Ledger, v: int) returns (ok: bool)
    requires Opened(box, ledger)
    modifies box`saved, box`killed, ledger
    ensures box.Valid() && box.LedgerOk() && box.saved.status != Complete
    ensures old(box.killed) ==> box.killed
    ensures box.saved.steps == old(box.saved).steps
    ensures ok ==> Running(box, ledger)
    ensures old(box.Serene()) && ValidDbCache(v) ==> ok && box.Serene()
  {
    ok := true;
    if ledger.doc.dbCache == None {
      ok := PersistDbCache(box, ledger, v);
    }
  }

  // The unattended decisions and the steps.
  method StartUnattended(box: Box, ledger: Ledger, dec: Decisions, bakeOnly: bool, cache: int, version: string)
    returns (ok: bool)
    requires Opened(box, ledger) && box.trace == [] && dec.password == NoPassword && !dec.applied
    modifies box`saved, box`admin, box`marker, box`nextSerial, box`killed, box`trace, ledger, dec
    ensures box.Valid() && box.LedgerOk() && box.saved.status != Complete
    ensures SafeTrace(StepsOf(box.full, bakeOnly), box.trace)
    ensures ok ==> Running(box, ledger) && dec.password.Generated? && dec.password.serial < box.nextSerial
    ensures ok && !bakeOnly ==> AllDone(box)
    ensures dec.applied ==> box.admin == dec.password
    ensures ok && !bakeOnly ==> dec.applied == !old(IdentityRecorded(box))
    ensures ok && !bakeOnly ==>
      Delivers(box, dec) == (!old(IdentityRecorded(box)) || (old(box.marker) && !box.blind.reapply))
    ensures bakeOnly || old(IdentityRecorded(box)) ==> box.admin == old(box.admin) && box.marker == old(box.marker)
    ensures ok && dec.applied ==> box.marker && box.Undelivered()
    ensures old(box.Serene()) && ValidDbCache(cache) && !Blank(version) ==> ok && box.Serene()
  {
    ok := box.Look();
    if !ok { return; }
    var serial;
    ok, serial := box.GeneratePassword();
    if !ok { return; }
    dec.password := Generated(serial);
    ok := DecideDbCache(box, ledger, cache);
    if !ok { return; }
    ok := RunPass(box, ledger, dec, bakeOnly, version);
  }

  // A run that bakes an image stops after its pass.
  method RunBake(box: Box, ledger: Ledger, cache: int, version: string) returns (r: RunEnd)
    requires Opened(box, ledger) && box.trace == []
    modifies box`saved, box`admin, box`marker, box`nextSerial, box`killed, box`trace, ledger
    ensures box.Valid() && box.LedgerOk() && r in {BakeDone, Stopped} && box.saved.status != Complete
    ensures SafeTrace(StepsOf(box.full, true), box.trace)
    ensures Untouched(box)
    ensures old(box.Serene()) && ValidDbCache(cache) && !Blank(version) ==> r == BakeDone
  {
    var dec := new Decisions();
    var ok := StartUnattended(box, ledger, dec, true, cache, version);
    r := if ok then BakeDone else Stopped;
  }

  // A run of the unattended installer that still has steps to do.
  method RunUnattended(box: Box, ledger: Ledger, cache: int, version: string) returns (r: RunEnd)
    requires Opened(box, ledger) && box.trace == []
    modifies box`saved, box`admin, box`marker, box`shown, box`nextSerial, box`killed, box`missed, box`trace,
      box`configDir, ledger
    ensures box.Valid() && box.LedgerOk()
    ensures old(box.configDir) == RootOnly ==> box.configDir == RootOnly && box.saved.status != Complete
    ensures r in {Installed, Stopped} && (r == Installed ==> box.saved.status == Complete)
    ensures SafeTrace(StepsOf(box.full, false), box.trace)
    ensures box.PrintedInForce(old(box.shown))
    // with the identity step still to do, its password is delivered; else one that is owed is
    // delivered exactly if the marker is read when it matters
    ensures old(box.Serene()) && ValidDbCache(cache) && !Blank(version) ==>
      if !old(IdentityRecorded(box)) || (old(box.marker) && !box.blind.reapply)
      then r == Installed && !box.Undelivered()
      else Untouched(box) && (r == Installed <==> box.blind.publish || !box.marker)
  {
    var dec := new Decisions();
    var ok := StartUnattended(box, ledger, dec, false, cache, version);
    if !ok { return Stopped; }
    ok := CompleteUnattended(box, ledger, dec);
    r := if ok then Installed else Stopped;
  }

  // completeInteractive.
  method CompleteInteractive(box: Box, ledger: Ledger) returns (ok: bool)
    requires Running(box, ledger)
    modifies box`saved, box`killed, box`missed, ledger, box`configDir
    ensures box.Valid() && box.LedgerOk()
    ensures old(box.configDir) == RootOnly ==> box.configDir == RootOnly && box.saved.status != Complete
    ensures ok ==> box.saved.status == Complete
    ensures old(box.Serene() && AllDone(box)) ==> ok == (box.blind.publish || !box.marker)
  {
    ok := PrepareInstallCompletion(box, ledger);
    if !ok { return; }
    ok := PublishTerminalLedger(box, ledger);
  }

  // The wizard: the operator chooses the password, so nothing is generated or owed.
  method RunAttended(box: Box, ledger: Ledger, cache: int, version: string) returns (r: RunEnd)
    requires Opened(box, ledger) && box.trace == []
    modifies box`saved, box`admin, box`marker, box`killed, box`missed, box`trace,
      box`configDir, ledger
    ensures box.Valid() && box.LedgerOk()
    ensures old(box.configDir) == RootOnly ==> box.configDir == RootOnly && box.saved.status != Complete
    ensures r in {Installed, Stopped} && (r == Installed ==> box.saved.status == Complete)
    ensures SafeTrace(StepsOf(box.full, false), box.trace)
    ensures box.marker == old(box.marker)
    ensures old(box.Serene()) && ValidDbCache(cache) && !Blank(version) ==>
      (r == Installed <==> box.blind.publish || !box.marker)
  {
    var dec := new Decisions();
    dec.password := Chosen;
    var ok := DecideDbCache(box, ledger, cache);
    if !ok { return Stopped; }
    ok := RunPass(box, ledger, dec, false, version);
    if !ok { return Stopped; }
    ok := CompleteInteractive(box, ledger);
    r := if ok then Installed else Stopped;
  }

  // All steps are recorded: a password is generated only if one is seen to be owed.
  method FillOwedPassword(box: Box, dec: Decisions) returns (ok: bool)
    requires box.Valid() && dec.password == NoPassword
    modifies box`nextSerial, box`killed, dec`password
    ensures box.Valid()
    ensures dec.password.Generated? ==> dec.password.serial < box.nextSerial
    ensures dec.password.Generated? ==> box.marker
    ensures ok && !dec.password.Generated? ==> dec.password == NoPassword
    ensures old(box.Serene()) ==> ok && box.Serene() && (dec.password.Generated? <==> box.marker && !box.blind.decide)
  {
    ok := true;
    var pending := box.PasswordPending(box.blind.decide);
    if pending {
      var serial;
      ok, serial := box.GeneratePassword();
      if ok {
        dec.password := Generated(serial);
      }
    }
  }

  // The unattended end of a run whose steps were all recorded by earlier ones.
  method FinishPendingUnattended(box: Box, ledger: Ledger) returns (ok: bool)
    requires Running(box, ledger) && AllDone(box)
    modifies box`saved, box`admin, box`marker, box`shown, box`nextSerial, box`killed, box`missed, ledger, box`configDir
    ensures box.Valid() && box.LedgerOk()
    ensures old(box.configDir) == RootOnly ==> box.configDir == RootOnly && box.saved.status != Complete
    ensures ok ==> box.saved.status == Complete
    ensures box.PrintedInForce(old(box.shown))
    ensures old(box.Serene()) ==>
      if old(box.marker) && !box.blind.decide && !box.blind.reapply then ok && !box.Undelivered()
      else Untouched(box) && ok == (box.blind.publish || !box.marker)
  {
    var dec := new Decisions();
    ok := FillOwedPassword(box, dec);
    if !ok { return; }
    ok := CompleteUnattended(box, ledger, dec);
  }

  // The completion-pending disposition: only the end of a run is left, and a bake is refused.
  method FinishPending(box: Box, ledger: Ledger, mode: Mode) returns (r: RunEnd)
    requires Running(box, ledger) && AllDone(box)
    modifies box`saved, box`admin, box`marker, box`shown, box`nextSerial, box`killed, box`missed, ledger, box`configDir
    ensures box.Valid() && box.LedgerOk()
    ensures old(box.configDir) == RootOnly ==> box.configDir == RootOnly && box.saved.status != Complete
    ensures r in {Installed, Stopped} && (r == Installed ==> box.saved.status == Complete)
    ensures box.PrintedInForce(old(box.shown))
    ensures mode != Unattended ==> Untouched(box)
    ensures mode == UnattendedBake ==> r == Stopped
    ensures old(box.Serene()) && mode == Unattended ==>
      if old(box.marker) && !box.blind.decide && !box.blind.reapply then r == Installed && !box.Undelivered()
      else Untouched(box) && (r == Installed <==> box.blind.publish || !box.marker)
    ensures old(box.Serene()) && mode == Attended ==> (r == Installed <==> box.blind.publish || !box.marker)
  {
    if mode == UnattendedBake {
      return Stopped;
    }
    var ok;
    if mode == Attended {
      ok := CompleteInteractive(box, ledger);
    } else {
      ok := FinishPendingUnattended(box, ledger);
    }
    r := if ok then Installed else Stopped;
  }

  // Whether an unattended run sees that a password is owed wherever it has to. The decision
  // to generate one depends on the marker only when no step is left to do.
  predicate SeesOwed(box: Box)
    reads box
  {
    box.marker && !box.blind.reapply && (AllDone(box) ==> !box.blind.decide)
  }

  // A run with steps left to do, in any mode.
  method RunRemaining(box: Box, ledger: Ledger, mode: Mode, cache: int, version: string) returns (r: RunEnd)
    requires Opened(box, ledger) && box.trace == []
    modifies box`saved, box`admin, box`marker, box`shown, box`nextSerial, box`killed, box`missed, box`trace,
      box`configDir, ledger
    ensures box.Valid() && box.LedgerOk()
    ensures old(box.configDir) == RootOnly ==> box.configDir == RootOnly && box.saved.status != Complete
    ensures r != AlreadyInstalled && (r == Installed ==> box.saved.status == Complete)
    ensures SafeTrace(StepsOf(box.full, mode == UnattendedBake), box.trace)
    ensures box.PrintedInForce(old(box.shown))
    ensures mode == UnattendedBake ==> Untouched(box)
    ensures mode == Attended ==> box.marker == old(box.marker)
    ensures old(box.Serene()) && ValidDbCache(cache) && !Blank(version) ==>
      match mode
      case UnattendedBake => r == BakeDone
      case Attended => (r == Installed <==> box.blind.publish || !box.marker)
      case Unattended =>
        if !old(IdentityRecorded(box)) || (old(box.marker) && !box.blind.reapply)
        then r == Installed && !box.Undelivered()
        else Untouched(box) && (r == Installed <==> box.blind.publish || !box.marker)
  {
    match mode
    case Attended => r := RunAttended(box, ledger, cache, version);
    case UnattendedBake => r := RunBake(box, ledger, cache, version);
    case Unattended => r := RunUnattended(box, ledger, cache, version);
  }

  lemma AllDoneIsRunning(box: Box)
    requires box.Valid() && box.LedgerOk() && AllDone(box)
    ensures IdentityRecorded(box) && box.saved.dbCache.Some?
  {
    IdentityIsAStep(box.full);
    box.Judge(box.saved);
  }

  // The part of RunInstall after preflight, on an unfinished lifecycle.
  method Proceed(box: Box, mode: Mode, cache: int, version: string) returns (r: RunEnd)
    requires box.Valid() && box.LedgerOk() && box.saved.status != Complete && box.trace == []
    modifies box`saved, box`admin, box`marker, box`shown, box`nextSerial, box`killed, box`missed, box`trace,
      box`configDir
    ensures box.Valid() && box.LedgerOk()
    ensures old(box.configDir) == RootOnly ==> box.configDir == RootOnly && box.saved.status != Complete
    ensures r == Installed ==> box.saved.status == Complete
    ensures r != AlreadyInstalled
    ensures SafeTrace(StepsOf(box.full, mode == UnattendedBake), box.trace)
    ensures box.PrintedInForce(old(box.shown))
    ensures mode == UnattendedBake ==> Untouched(box)
    ensures old(box.Serene() && !AllDone(box)) && mode == UnattendedBake && ValidDbCache(cache) && !Blank(version) ==>
      r == BakeDone
    ensures old(box.Serene()) && mode == Attended && ValidDbCache(cache) && !Blank(version) ==>
      (r == Installed <==> box.blind.publish || !old(box.marker))
    ensures old(box.Serene()) && mode == Unattended && ValidDbCache(cache) && !Blank(version) ==>
      if old(!IdentityRecorded(box) || SeesOwed(box)) then r == Installed && !box.Undelivered()
      else Untouched(box) && (r == Installed <==> box.blind.publish || !box.marker)
  {
    var ledger := new Ledger(Keys(box.full), box.saved);
    if AllDone(box) {
      AllDoneIsRunning(box);
      r := FinishPending(box, ledger, mode);
    } else {
      r := RunRemaining(box, ledger, mode, cache, version);
    }
  }

  // The part of RunInstall up to preflight: the classifier refuses a marker it cannot lstat
  // and one beside a complete ledger, an installed box is left alone, and the wizard does not
  // run while it sees that a password is owed.
  method Admit(box: Box, mode: Mode) returns (refused: Option<RunEnd>)
    requires box.Valid()
    modifies box`killed
    ensures box.Valid()
    ensures refused == None ==> box.saved.status != Complete && !box.blind.classify
    ensures refused.Some? ==> refused.value in {AlreadyInstalled, Stopped}
    ensures refused == Some(AlreadyInstalled) ==> box.saved.status == Complete && !box.marker
    ensures old(box.Serene()) && box.saved.status != Complete ==>
      (refused == None <==> !box.blind.classify && (mode == Attended && box.marker ==> box.blind.wizard))
    ensures old(box.Serene()) ==> box.Serene()
  {
    var ok := box.Look();
    if !ok { return Some(Stopped); }
    var marker := box.Lstat(box.blind.classify);
    if marker == Unreadable {
      return Some(Stopped);
    }
    if box.saved.status == Complete {
      return Some(if marker == Present then Stopped else AlreadyInstalled);
    }
    if mode == Attended {
      var pending := box.PasswordPending(box.blind.wizard);
      if pending { return Some(Stopped); }
    }
    ok := box.Look();
    refused := if ok then None else Some(Stopped);
  }

  // RunInstall on a box whose lifecycle has been initialized.
  method RunInstall(box: Box, mode: Mode, cache: int, version: string) returns (r: RunEnd)
    requires box.Valid() && box.LedgerOk()
    modifies box`saved, box`admin, box`marker, box`shown, box`nextSerial, box`killed, box`missed, box`trace,
      box`configDir
    ensures box.Valid() && box.LedgerOk()
    ensures old(box.configDir) == RootOnly && old(box.saved.status) != Complete ==>
      box.configDir == RootOnly && box.saved.status != Complete
    ensures old(box.configDir) == RootOnly ==> box.configDir == RootOnly
    // an installed box owes nobody a password, unless the lstat that let its ledger be
    // completed missed the marker
    ensures r in {Installed, AlreadyInstalled} ==> box.saved.status == Complete && (box.Undelivered() ==> box.missed)
    // whatever was printed is the password in force
    ensures box.PrintedInForce(old(box.shown))
    // no step was executed without the gates and group members before it
    ensures SafeTrace(StepsOf(box.full, mode == UnattendedBake), box.trace)
    // a completed ledger is never touched again, and an unreadable marker is refused
    ensures old(box.saved.status) == Complete || box.blind.classify ==> box.saved == old(box.saved) && Untouched(box)
    // baking leaves the password alone, and a calm bake finishes
    ensures mode == UnattendedBake ==> Untouched(box)
    ensures old(Starts(box, cache, version) && !AllDone(box)) && mode == UnattendedBake ==> r == BakeDone
    // a calm wizard run finishes exactly if it sees no marker, or cannot
    ensures old(Starts(box, cache, version)) && mode == Attended ==>
      (r == Installed <==> (old(box.marker) ==> box.blind.wizard && box.blind.publish))
    // a calm unattended run delivers its password if it has the identity step before it; after
    // that step, an owed password is delivered exactly if the run sees the marker where it has
    // to, and lost exactly if it does not see it before completing either
    ensures old(Starts(box, cache, version)) && mode == Unattended ==>
      if old(!IdentityRecorded(box) || SeesOwed(box)) then r == Installed && !box.Undelivered()
      else Untouched(box) && (r == Installed <==> box.blind.publish || !box.marker)
  {
    box.trace := [];
    var refused := Admit(box, mode);
    if refused.Some? {
      return refused.value;
    }
    r := Proceed(box, mode, cache, version);
  }

  // Nothing but lstats of the marker after classification will fail, on an unfinished ledger.
  predicate Starts(box: Box, cache: int, version: string)
    reads box
  {
    box.Serene() && box.saved.status != Complete && !box.blind.classify && ValidDbCache(cache) && !Blank(version)
  }

  // set-user-password from the node TUI: an operator's choice supersedes what was generated.
  method OperatorSetsPassword(box: Box)
    requires box.Valid()
    modifies box`admin, box`marker, box`killed
    ensures box.Valid()
  {
    var ok := box.SetUserPassword(Chosen);
    if ok {
      ok := box.ClearMarker();
    }
  }

  datatype Event = Run(mode: Mode, cache: int, version: string) | OperatorPassword

  // What one run did: what it executed, what had been printed before and after it, and the
  // password in force at its end.
  datatype RunRecord =
    RunRecord(mode: Mode, trace: seq<Execution>, before: set<nat>, after: set<nat>, inForce: Credential)

  // No step without the gates and group members before it; nothing printed but the password
  // in force.
  ghost predicate SafeRun(full: seq<Step>, r: RunRecord) {
    && SafeTrace(StepsOf(full, r.mode == UnattendedBake), r.trace)
    && r.before <= r.after <= r.before + if r.inForce.Generated? then {r.inForce.serial} else {}
  }

  function ModesOf(events: seq<Event>): seq<Mode> {
    if events == [] then [] else
    ModesOf(events[..|events| - 1]) +
    match events[|events| - 1]
    case Run(mode, _, _) => [mode]
    case OperatorPassword => []
  }

  // The records of a sequence of runs: each is safe, and nothing is printed between them.
  ghost predicate SafeLog(full: seq<Step>, log: seq<RunRecord>, shown: set<nat>) {
    && (forall k | 0 <= k < |log| :: SafeRun(full, log[k]))
    && (forall k | 0 < k < |log| :: log[k].before == log[k - 1].after)
    && (if log == [] then shown == {} else log[0].before == {} && shown == log[|log| - 1].after)
  }

  lemma LogGrows(full: seq<Step>, log: seq<RunRecord>, r: RunRecord)
    requires SafeLog(full, log, r.before) && SafeRun(full, r)
    ensures SafeLog(full, log + [r], r.after)
  {
  }

  method OneEvent(box: Box, event: Event, ghost log: seq<RunRecord>) returns (ghost next: seq<RunRecord>)
    requires box.Valid() && box.LedgerOk() && SafeLog(box.full, log, box.shown)
    modifies box`saved, box`admin, box`marker, box`shown, box`nextSerial, box`killed, box`missed, box`trace,
      box`configDir
    ensures box.Valid() && box.LedgerOk() && SafeLog(box.full, next, box.shown)
    ensures old(box.configDir) == RootOnly ==> box.configDir == RootOnly
    ensures old(box.configDir) == RootOnly && old(box.saved.status) != Complete ==> box.saved.status != Complete
    ensures match event
            case Run(mode, _, _) => |next| == |log| + 1 && log <= next && next[|log|].mode == mode
            case OperatorPassword => next == log
  {
    next := log;
    match event {
      case Run(mode, cache, version) =>
        var outcome := RunInstall(box, mode, cache, version);
        ghost var record := RunRecord(mode, box.trace, old(box.shown), box.shown, box.admin);
        LogGrows(box.full, log, record);
        next := log + [record];
      case OperatorPassword =>
        OperatorSetsPassword(box);
    }
  }

  // One unattended run in which nothing fails: it completes exactly if no earlier run left the
  // configuration directory half-made.
  method CalmRun(box: Box) returns (r: RunEnd, ghost record: RunRecord)
    requires box.Valid() && box.LedgerOk() && !box.killed
    modifies box
    ensures box.Valid() && box.LedgerOk() && SafeRun(box.full, record)
    ensures record.mode == Unattended && record.before == old(box.shown) && record.after == box.shown
    ensures old(box.saved.status) != Complete && old(box.configDir) != RootOnly ==>
      r == Installed && box.saved.status == Complete && !box.Undelivered()
    ensures old(box.saved.status) != Complete && old(box.configDir) == RootOnly ==>
      r != Installed && box.saved.status != Complete
    ensures old(box.saved.status) == Complete ==> box.saved == old(box.saved)
  {
    box.calm, box.blind := true, SIGHTED;
    assert '1' in "1" && !IsSpace('1');
    r := RunInstall(box, Unattended, 512, "1");
    record := RunRecord(Unattended, box.trace, old(box.shown), box.shown, box.admin);
  }

  // From a fresh box, after any runs each failing or killed anywhere: every one of them was
  // safe; a completed ledger means that no password is owed, unless the last lstat before it
  // missed the marker; and from an unfinished one a single calm unattended run gets there,
  // with nothing owed at all, exactly if the configuration directory is fit.
  method AnyInstallRuns(full: seq<Step>, network: string, events: seq<Event>)
    returns (box: Box, before: bool, fit: bool, r: RunEnd, ghost log: seq<RunRecord>)
    requires Profile(full) && ValidNetwork(network)
    ensures fresh(box) && box.Valid() && box.LedgerOk() && box.full == full
    ensures before ==> box.saved.status == Complete && (box.Undelivered() ==> box.missed)
    ensures !before && fit ==> r == Installed && box.saved.status == Complete && !box.Undelivered()
    ensures !before && !fit ==> r != Installed && box.saved.status != Complete
    ensures SafeLog(full, log, box.shown) && |log| == |ModesOf(events)| + 1
    ensures forall k | 0 <= k < |ModesOf(events)| :: log[k].mode == ModesOf(events)[k]
  {
    box := new Box(full, network);
    log := [];
    for i := 0 to |events|
      invariant fresh(box) && box.Valid() && box.LedgerOk() && !box.killed && !box.calm && box.full == full
      invariant SafeLog(full, log, box.shown) && |log| == |ModesOf(events[..i])|
      invariant forall k | 0 <= k < |log| :: log[k].mode == ModesOf(events[..i])[k]
    {
      assert events[..i + 1][..i] == events[..i];
      log := OneEvent(box, events[i], log);
      box.Restart();
    }
    assert events[..|events|] == events;
    before, fit := box.saved.status == Complete, box.configDir != RootOnly;
    ghost var last;
    r, last := CalmRun(box);
    LogGrows(full, log, last);
    log := log + [last];
  }

  // A run that is killed after its last step, before the password is printed.
  method KilledBeforePrinting(full: seq<Step>, network: string) returns (box: Box)
    requires Profile(full) && ValidNetwork(network)
    ensures fresh(box) && box.Valid() && box.LedgerOk() && !box.killed && box.saved.status != Complete
    ensures box.full == full && AllDone(box) && box.Undelivered() && box.configDir == NoDir && box.shown == {}
  {
    box := new Box(full, network);
    box.calm := true;
    assert '1' in "1" && !IsSpace('1');
    var ledger := new Ledger(Keys(full), box.saved);
    var dec := new Decisions();
    var ok := StartUnattended(box, ledger, dec, false, 512, "1");
    box.Restart();
  }

  // It does happen: the next run cannot lstat the marker at the two places that matter.
  method PasswordCanBeLost(full: seq<Step>, network: string) returns (box: Box, r: RunEnd)
    requires Profile(full) && ValidNetwork(network)
    ensures fresh(box) && box.Valid() && r == Installed && box.saved.status == Complete && box.Undelivered()
  {
    box := KilledBeforePrinting(full, network);
    IdentityIsAStep(full);
    box.calm, box.blind := true, SIGHTED.(reapply := true, publish := true);
    assert '1' in "1" && !IsSpace('1');
    r := RunInstall(box, Unattended, 512, "1");
  }

  // And so does the other: a run is killed between making the configuration directory and
  // giving it to its group. After any further events no run ever completes the install.
  method HalfMadeDirectoryBlocks(full: seq<Step>, network: string, events: seq<Event>) returns (box: Box, r: RunEnd)
    requires Profile(full) && ValidNetwork(network)
    ensures fresh(box) && box.Valid() && r != Installed && box.saved.status != Complete
  {
    box := KilledBeforePrinting(full, network);
    box.calm := true;
    var made := box.MakeConfigDir();
    box.Restart();
    ghost var log := [];
    for i := 0 to |events|
      invariant fresh(box) && box.Valid() && box.LedgerOk() && !box.killed && box.saved.status != Complete
      invariant box.configDir == RootOnly && SafeLog(box.full, log, box.shown)
    {
      log := OneEvent(box, events[i], log);
      box.Restart();
    }
    ghost var record;
    r, record := CalmRun(box);
  }
}
