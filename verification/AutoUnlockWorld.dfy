/**
 The world the auto-unlock transition acts on, seen through the operations of
 `autoUnlockOps`: the durable files, systemd's loaded view of the unit, and an
 LND process that may exit or be replaced before every single operation.

 Every operation reports success as a boolean. Success means its effect happened;
 failure means the effect may or may not have happened (a rename or unlink can
 precede a failing directory sync). The caller itself may be killed inside any
 operation: from then on `crashed` holds and every further operation is inert, so
 whatever state a method leaves behind includes every state a kill can leave.
 */
module AutoUnlockWorld {
  import opened Basics

  datatype Unit = UnknownUnit | PlainUnit | EnabledUnit
  datatype Argv = PlainArgv | UnlockArgv | OtherArgv
  datatype WalletState = NonExisting | Locked | Unlocked | RpcActive | ServerActive | WaitingToStart
  datatype ActiveState = Active | Inactive | Failed | OtherActive
  datatype SubState = Running | OtherSub
  datatype Restart = RestartNo | RestartOnFailure
  datatype DropIns = NoDropIn | VerificationOnly | ForeignDropIns

  // What survives a kill or a reboot.
  datatype Disk = Disk(flag: bool, unit: Unit, password: Option<string>, stage: bool, drop: bool)

  // What PID 1 last loaded with daemon-reload.
  datatype Loaded = Loaded(unit: Unit, drop: bool)

  // Life of one invocation: it only moves towards Down and keeps its main PID while it is up.
  datatype Phase = Starting | Up(pid: nat) | Down

  // `argv` is fixed when the invocation starts; `secret` is what the password file held then.
  datatype Process = Process(invocation: nat, phase: Phase, argv: Argv, secret: Option<string>, wallet: WalletState)

  // One `systemctl show` sample. Invocation 0 stands for the empty InvocationID.
  datatype Status = Status(invocation: nat, mainPID: nat, controlPID: nat,
                           active: ActiveState, sub: SubState, timedOut: bool,
                           restart: Restart, ownFragment: bool, notify: bool,
                           needReload: bool, drops: DropIns, exec: Argv)

  // milliseconds
  const STARTUP_TIMEOUT: nat := 120000
  const POSTCONDITION_TIMEOUT: nat := 10000
  const POLL_INTERVAL: nat := 1000

  function ArgvOf(unit: Unit): Argv {
    match unit
    case PlainUnit => PlainArgv
    case EnabledUnit => UnlockArgv
    case UnknownUnit => OtherArgv
  }

  predicate StablyRunning(s: Status) {
    s.invocation != 0 && s.mainPID > 0 && s.controlPID == 0 && s.active == Active && s.sub == Running
  }

  predicate NoProcess(s: Status) {
    s.mainPID == 0 && s.controlPID == 0 && (s.active == Inactive || s.active == Failed)
  }

  predicate WalletStateMatches(got: WalletState, want: WalletState) {
    if want == RpcActive then got == RpcActive || got == ServerActive else got == want
  }

  predicate Later(a: Phase, b: Phase) {
    (a.Down? ==> b.Down?) && (a.Up? ==> b == a || b.Down?)
  }

  // How the process may have changed while no operation of ours touched it: the same
  // invocation moved on, or a later one was started from the loaded unit.
  predicate Follows(p: Process, q: Process, loaded: Loaded, password: Option<string>) {
    if q.invocation == p.invocation then
      q.argv == p.argv && q.secret == p.secret && Later(p.phase, q.phase)
    else
      q.invocation > p.invocation && q.argv == ArgvOf(loaded.unit) && q.secret == password
  }

  // A running invocation has an ID and a PID, and LND started with the unlock argument
  // exits unless the file it read opens the wallet.
  predicate Plausible(p: Process, truth: string) {
    && (p.phase.Up? ==> p.invocation > 0 && p.phase.pid > 0)
    && (!p.phase.Down? && p.argv == UnlockArgv && WalletStateMatches(p.wallet, RpcActive)
        ==> p.secret == Some(truth))
  }

  // A running LND that was told to unlock itself read the password that is still stored.
  predicate Bound(p: Process, d: Disk) {
    !p.phase.Down? && p.argv == UnlockArgv ==> p.secret == d.password
  }

  // A sample tells the truth about the process and the loaded unit.
  predicate Reports(s: Status, p: Process, loaded: Loaded) {
    && s.invocation == p.invocation
    && (StablyRunning(s) ==> p.phase == Up(s.mainPID))
    && (NoProcess(s) ==> p.phase.Down?)
    && s.restart == (if loaded.drop then RestartNo else RestartOnFailure)
    && (s.drops == VerificationOnly ==> loaded.drop)
    && (s.drops == NoDropIn ==> !loaded.drop)
    && s.exec == ArgvOf(loaded.unit)
  }

  // A sample of a system in which nothing is failing.
  predicate ReportsCalmly(s: Status, p: Process, loaded: Loaded, d: Disk) {
    && (p.phase.Up? ==> StablyRunning(s))
    && (p.phase.Down? ==> NoProcess(s) && !s.timedOut)
    && s.ownFragment && s.notify
    && s.needReload == (loaded != Loaded(d.unit, d.drop))
    && s.drops == (if loaded.drop then VerificationOnly else NoDropIn)
  }

  ghost predicate FullyEnabled(d: Disk, truth: string) {
    d.flag && d.unit == EnabledUnit && d.password == Some(truth) && !d.stage && !d.drop
  }

  ghost predicate FullyDisabled(d: Disk) {
    !d.flag && d.unit == PlainUnit && d.password == None && !d.stage && !d.drop
  }

  // Holds of the durable state at every instant of every run. The second line is the
  // one-attempt rule: without the Restart=no drop-in, the enabled unit is only ever on
  // disk together with the password that really opens the wallet.
  ghost predicate Durable(d: Disk, truth: string) {
    && (d.unit == EnabledUnit ==> d.password.Some?)
    && (d.unit == EnabledUnit && !d.drop ==> d.password == Some(truth))
    && (d.stage ==> !d.flag)
  }

  /* ---- What happened: every write and every observation, in order ---- */

  datatype What =
    | Began                                      // a transition starts
    | Wrote(dependent: bool)                     // `dependent`: LND could be using the password
    | Reloaded
    | Started
    | Saw(status: Status)
    | ReadArgs(pid: nat, args: Option<Argv>)
    | ReadWallet(wallet: WalletState)

  // A sighting of LND: when, which invocation, its arguments and wallet state, and what PID 1
  // had loaded then.
  datatype Seen = Seen(at: nat, invocation: nat, argv: Argv, wallet: WalletState, loaded: Loaded)

  // One instant: what was done, the state right after it, the invocation at the start of the
  // transition, whether a newer self-unlocking one has been proved since (`proved`), whether
  // LND is known not to use the password (`clear`), and the last sighting.
  datatype Instant = Instant(what: What, disk: Disk, loaded: Loaded, began: nat, proved: bool, clear: bool,
                             seen: Option<Seen>)

  // Two equal running samples around a read of the argument vector.
  predicate Bracket(h: seq<Instant>, k: nat, argv: Argv)
    requires k < |h|
  {
    && k >= 2 && h[k].what.Saw? && h[k - 2].what.Saw?
    && var s, t := h[k - 2].what.status, h[k].what.status;
       && StablyRunning(s) && StablyRunning(t) && s.invocation == t.invocation && s.mainPID == t.mainPID
       && h[k - 1].what == ReadArgs(s.mainPID, Some(argv))
  }

  // The invocation and arguments that the last three instants bracket.
  function LastBracket(h: seq<Instant>): Option<(nat, Argv)> {
    var k := |h| - 1;
    if k >= 2 && h[k - 1].what.ReadArgs? && h[k - 1].what.args.Some? && Bracket(h, k, h[k - 1].what.args.value)
    then Some((h[k].what.status.invocation, h[k - 1].what.args.value)) else None
  }

  lemma BracketStays(h: seq<Instant>, later: seq<Instant>, k: nat, argv: Argv)
    requires k < |h| && h <= later
    ensures Bracket(h, k, argv) <==> Bracket(later, k, argv)
  {
  }

  // A bracketed invocation, and right after it a wallet in the wanted state.
  predicate Sighting(h: seq<Instant>, k: nat, argv: Argv, want: WalletState)
    requires k < |h|
  {
    && k >= 1 && h[k].what.ReadWallet? && WalletStateMatches(h[k].what.wallet, want)
    && Bracket(h, k - 1, argv)
  }

  function SightedInvocation(h: seq<Instant>, k: nat): nat
    requires 1 <= k < |h|
  {
    if h[k - 1].what.Saw? then h[k - 1].what.status.invocation else 0
  }

  ghost predicate OnRecord(h: seq<Instant>, s: Seen) {
    && 1 <= s.at < |h| && Sighting(h, s.at, s.argv, s.wallet) && SightedInvocation(h, s.at) == s.invocation
    && h[s.at].loaded == s.loaded && h[s.at].what == ReadWallet(s.wallet)
  }

  // A self-unlocking LND past its wallet, newer than the transition.
  predicate UnlockProof(h: seq<Instant>, k: nat)
    requires k < |h|
  {
    Sighting(h, k, UnlockArgv, RpcActive) && SightedInvocation(h, k) > h[k].began
  }

  // No main and no control process, or one stable invocation with plain arguments.
  predicate ClearProof(h: seq<Instant>, k: nat)
    requires k < |h|
  {
    (h[k].what.Saw? && NoProcess(h[k].what.status)) || Bracket(h, k, PlainArgv)
  }

  // The drop-in is taken away from the enabled unit, or the flag is raised.
  predicate NeedsProof(a: Disk, b: Disk) {
    (b.flag && !a.flag) || (a.unit == EnabledUnit && a.drop && b.unit == EnabledUnit && !b.drop)
  }

  ghost predicate SafeChange(a: Disk, b: Disk, dependent: bool, truth: string) {
    && Durable(b, truth)
       // the flag is only raised over a complete enabled state with the right password
    && (b.flag && !a.flag ==> FullyEnabled(b, truth))
       // the password only changes under the plain unit, with no LND depending on it
    && (b.password != a.password ==> a.unit == PlainUnit && b.unit == PlainUnit && !dependent)
       // the enabled unit is only installed behind the Restart=no drop-in
    && (b.unit == EnabledUnit && a.unit != EnabledUnit ==> b.drop)
  }

  ghost predicate SafeWrite(a: Instant, b: Disk, dependent: bool, truth: string) {
    && SafeChange(a.disk, b, dependent, truth)
    && (NeedsProof(a.disk, b) ==> a.proved)
    && (b.password != a.disk.password ==> a.clear)
  }

  ghost predicate SafeStep(h: seq<Instant>, i: nat, truth: string)
    requires i < |h|
  {
    if i == 0 then
      h[0].what == Began && Durable(h[0].disk, truth) && !h[0].proved && !h[0].clear && h[0].seen == None
    else
      var a, b := h[i - 1], h[i];
      && (if b.what.Wrote? then SafeWrite(a, b.disk, b.what.dependent, truth) else b.disk == a.disk)
      && (b.what.Began? || b.began == a.began)
      && (b.proved ==> !b.what.Began? && (a.proved || UnlockProof(h, i)))
      && (b.clear ==> !b.what.Began? && !b.what.Started? && (a.clear || ClearProof(h, i)))
      && (b.seen == a.seen || (b.seen.Some? && b.seen.value.at == i && OnRecord(h, b.seen.value)))
  }

  ghost predicate SafeHistory(h: seq<Instant>, truth: string) {
    h != [] && forall i | 0 <= i < |h| :: SafeStep(h, i, truth)
  }

  lemma HistoryGrows(h: seq<Instant>, x: Instant, truth: string)
    requires SafeHistory(h, truth) && SafeStep(h + [x], |h|, truth)
    ensures SafeHistory(h + [x], truth)
  {
    forall i | 0 <= i < |h + [x]| ensures SafeStep(h + [x], i, truth) {
      if i < |h| {
        assert SafeStep(h, i, truth);
      }
    }
  }

  lemma {:induction false} AlwaysDurable(h: seq<Instant>, i: nat, truth: string)
    requires SafeHistory(h, truth) && i < |h|
    ensures Durable(h[i].disk, truth)
  {
    assert SafeStep(h, i, truth);
    if i > 0 {
      AlwaysDurable(h, i - 1, truth);
    }
  }

  class Node {
    const truth: string        // the password that opens the wallet
    var disk: Disk
    var loaded: Loaded
    var proc: Process
    var time: nat
    var unfit: bool            // the drop-in directory holds a leftover, or has a foreign mode
    var crashed: bool          // the helper process has been killed
    var calm: bool             // nothing fails from here on
    ghost var history: seq<Instant>
    ghost var seen: Option<Seen>

    ghost predicate Valid()
      reads this
    {
      && SafeHistory(history, truth)
      && Last().disk == disk && Last().loaded == loaded && Last().seen == seen && Last().began <= proc.invocation
      && Plausible(proc, truth)
      && Bound(proc, disk)
    }

    ghost function Last(): Instant
      reads this`history
      requires history != []
    {
      history[|history| - 1]
    }

    ghost predicate Proved()
      reads this`history
    {
      history != [] && Last().proved
    }

    ghost predicate Clear()
      reads this`history
    {
      history != [] && Last().clear
    }

    // LND is running, or would be started, with a command that reads the stored password.
    predicate Dependent()
      reads this
    {
      loaded.unit != PlainUnit || (!proc.phase.Down? && proc.argv != PlainArgv)
    }

    // Nothing fails, and no leftover of a killed write makes it fail.
    predicate Serene()
      reads this
    {
      calm && !crashed && !unfit
    }

    lemma DiskIsDurable()
      requires Valid()
      ensures Durable(disk, truth)
    {
      AlwaysDurable(history, |history| - 1, truth);
    }

    // What every operation and every part of a transition keeps: nothing that happened is
    // forgotten, proofs stay proofs, and invocations only get newer.
    twostate predicate Ran()
      reads this
      requires old(Valid())
    {
      && Valid() && old(history) <= history
      && Last().began == old(Last().began) && (old(Proved()) ==> Proved())
      && (old(crashed) ==> crashed) && (old(unfit) ==> unfit) && old(proc.invocation) <= proc.invocation
    }

    // ... and what those keep that neither start nor stop LND.
    twostate predicate Passed()
      reads this
      requires old(Valid())
    {
      && Ran() && (old(Clear()) ==> Clear())
      && (calm ==> proc == old(proc))
      && (!old(Dependent()) && loaded.unit == PlainUnit ==> !Dependent())
    }

    constructor (truth: string, enabled: bool)
      ensures Valid() && this.truth == truth && |history| == 1 && !crashed && !calm && !unfit
      ensures enabled ==> FullyEnabled(disk, truth)
      ensures !enabled ==> FullyDisabled(disk)
    {
      this.truth := truth;
      var unit := if enabled then EnabledUnit else PlainUnit;
      var password := if enabled then Some(truth) else None;
      disk := Disk(enabled, unit, password, false, false);
      loaded := Loaded(unit, false);
      proc := Process(0, Down, ArgvOf(unit), password, WaitingToStart);
      time, crashed, calm, unfit, seen := 0, false, false, false, None;
      ghost var first := Disk(enabled, unit, password, false, false);
      history := [Instant(Began, first, Loaded(unit, false), 0, false, false, None)];
    }

    /* ---- The record ---- */

    // An observation, a start or a reload joins the record.
    ghost method Note(what: What)
      requires SafeHistory(history, truth) && Last().disk == disk && Last().seen == seen
      requires !what.Began? && !what.Wrote?
      modifies this`history
      ensures SafeHistory(history, truth) && |history| == |old(history)| + 1 && old(history) <= history
      ensures Last().what == what && Last().disk == disk && Last().loaded == loaded
      ensures Last().began == old(Last().began) && Last().seen == seen
      ensures Proved() <==> old(Proved()) || UnlockProof(history, |history| - 1)
      ensures Clear() <==> !what.Started? && (old(Clear()) || ClearProof(history, |history| - 1))
    {
      var x := Instant(what, disk, loaded, Last().began, true, true, seen);
      var k := |history|;
      var proved := Last().proved || UnlockProof(history + [x], k);
      var clear := !what.Started? && (Last().clear || ClearProof(history + [x], k));
      var y := x.(proved := proved, clear := clear);
      assert UnlockProof(history + [x], k) == UnlockProof(history + [y], k);
      assert ClearProof(history + [x], k) == ClearProof(history + [y], k);
      HistoryGrows(history, y, truth);
      history := history + [y];
    }

    // A wallet read completes a sighting if the invocation was just bracketed.
    ghost method NoteWallet(w: WalletState)
      requires SafeHistory(history, truth) && Last().disk == disk && Last().seen == seen
      modifies this`history, this`seen
      ensures SafeHistory(history, truth) && |history| == |old(history)| + 1 && old(history) <= history
      ensures Last().what == ReadWallet(w) && Last().disk == disk && Last().loaded == loaded
      ensures Last().began == old(Last().began) && Last().seen == seen
      ensures (old(Proved()) ==> Proved()) && (old(Clear()) ==> Clear())
      ensures old(LastBracket(history)).Some? ==>
        var (invocation, argv) := old(LastBracket(history)).value;
        && seen == Some(Seen(|old(history)|, invocation, argv, w, loaded))
        && (argv == UnlockArgv && WalletStateMatches(w, RpcActive) && invocation > Last().began ==> Proved())
    {
      var h := history;
      var x := Instant(ReadWallet(w), disk, loaded, Last().began, Last().proved, Last().clear, seen);
      if LastBracket(h).Some? {
        var (invocation, argv) := LastBracket(h).value;
        seen := Some(Seen(|h|, invocation, argv, w, loaded));
        var proves := argv == UnlockArgv && WalletStateMatches(w, RpcActive) && invocation > x.began;
        x := x.(seen := seen, proved := x.proved || proves);
        BracketStays(h, h + [x], |h| - 1, argv);
      }
      HistoryGrows(h, x, truth);
      history := h + [x];
    }

    // A transition starts: what was proved before does not count for it.
    ghost method BeginRun()
      requires Valid()
      modifies this`history
      ensures Valid() && old(history) <= history && |history| == |old(history)| + 1
      ensures Last().what == Began && Last().began == proc.invocation
    {
      var x := Instant(Began, disk, loaded, proc.invocation, false, false, seen);
      HistoryGrows(history, x, truth);
      history := history + [x];
    }

    // Publishes one durable change; its requirements are what every change must respect.
    method Commit(d: Disk)
      requires Valid() && SafeWrite(Last(), d, Dependent(), truth) && Bound(proc, d)
      modifies this`disk, this`history
      ensures Passed() && disk == d
      ensures Proved() == old(Proved()) && Clear() == old(Clear())
    {
      ghost var x := Instant(Wrote(Dependent()), d, loaded, Last().began, Last().proved, Last().clear, seen);
      HistoryGrows(history, x, truth);
      history := history + [x];
      disk := d;
    }

    // Before an operation LND moves on by itself; a calm one stays as it is. Then the
    // operation takes effect or not, and reports it or not.
    method Attempt() returns (acts: bool, ok: bool)
      requires Valid()
      modifies this`crashed, this`proc
      ensures Passed() && Follows(old(proc), proc, loaded, disk.password)
      ensures ok ==> acts && !crashed
      ensures old(crashed) ==> !acts
      ensures old(calm && !crashed) ==> ok
    {
      Drift();
      if crashed {
        return false, false;
      }
      acts, ok := true, true;
      if !calm {
        acts, ok, crashed := *, *, *;
        ok := ok && acts && !crashed;
      }
    }

    method Drift()
      requires Valid()
      modifies this`proc
      ensures Valid() && Follows(old(proc), proc, loaded, disk.password)
      ensures calm ==> proc == old(proc)
    {
      var q: Process := *;
      if !calm && Follows(proc, q, loaded, disk.password) && Plausible(q, truth) {
        proc := q;
      }
    }

    /* ---- The operations ---- */

    method LoadConfig() returns (ok: bool, flag: bool)
      requires Valid()
      modifies this`crashed, this`proc
      ensures Passed()
      ensures ok ==> flag == disk.flag && !crashed
      ensures old(Serene()) ==> ok && Serene()
    {
      var _, reported := Attempt();
      ok, flag := reported, disk.flag;
    }

    method SaveConfig(flag: bool) returns (ok: bool)
      requires Valid()
      requires flag && !disk.flag ==> FullyEnabled(disk.(flag := true), truth) && Proved()
      modifies this`disk, this`history, this`crashed, this`proc
      ensures Passed()
      ensures disk == old(disk) || disk == old(disk).(flag := flag)
      ensures ok ==> disk == old(disk).(flag := flag) && !crashed
      ensures old(Serene()) ==> ok && Serene()
    {
      var acts;
      acts, ok := Attempt();
      if acts {
        DiskIsDurable();
        Commit(disk.(flag := flag));
      }
    }

    // inspectArtifacts refuses a drop-in directory that holds anything but the drop-in.
    method Artifacts() returns (ok: bool, seen: Disk)
      requires Valid()
      modifies this`crashed, this`proc
      ensures Passed()
      ensures ok ==> seen == disk && !crashed && !unfit
      ensures old(Serene()) ==> ok && Serene()
    {
      var _, reported := Attempt();
      ok, seen := reported && !unfit, disk;
    }

    method WriteUnit(unit: Unit) returns (ok: bool)
      requires Valid() && unit != UnknownUnit
      requires unit == EnabledUnit ==> disk.drop && disk.password.Some?
      modifies this`disk, this`history, this`crashed, this`proc
      ensures Passed()
      ensures disk == old(disk) || disk == old(disk).(unit := unit)
      ensures ok ==> disk == old(disk).(unit := unit) && !crashed
      ensures old(Serene()) ==> ok && Serene()
    {
      var acts;
      acts, ok := Attempt();
      if acts {
        DiskIsDurable();
        Commit(disk.(unit := unit));
      }
    }

    // Stage, then rename. A failure may leave the stage behind, or the password in place.
    method WritePassword(password: string) returns (ok: bool)
      requires Valid() && disk.unit == PlainUnit && !disk.flag && !Dependent() && Clear()
      modifies this`disk, this`history, this`crashed, this`proc
      ensures Passed()
      ensures disk == old(disk) || disk == old(disk).(stage := true)
              || disk == old(disk).(stage := false, password := Some(password))
      ensures ok ==> !old(disk).stage && disk == old(disk).(password := Some(password)) && !crashed
      ensures old(Serene()) ==> Serene() && ok == (AcceptablePassword(password) && !old(disk).stage)
      ensures old(Serene()) && !ok ==> disk == old(disk)
    {
      if disk.stage || !AcceptablePassword(password) {
        return false;
      }
      var staged, stagedOk := PutSecret(disk.password, true);
      if !stagedOk {
        return false;
      }
      var renamed, renamedOk := PutSecret(Some(password), false);
      if !renamed {
        var cleaned, reported := PutSecret(disk.password, false);
      }
      ok := renamedOk;
    }

    // One change of the password file or its stage.
    method PutSecret(password: Option<string>, stage: bool) returns (acts: bool, ok: bool)
      requires Valid() && disk.unit == PlainUnit && !Dependent() && Clear() && (stage ==> !disk.flag)
      modifies this`disk, this`history, this`crashed, this`proc
      ensures Passed()
      ensures disk == if acts then old(disk).(password := password, stage := stage) else old(disk)
      ensures ok ==> acts && !crashed
      ensures old(Serene()) ==> ok && Serene()
    {
      acts, ok := Attempt();
      if acts {
        DiskIsDurable();
        Commit(disk.(password := password, stage := stage));
      }
    }

    // The canonical file goes first, then the stage; either unlink may fail on its own.
    method RemovePassword() returns (ok: bool)
      requires Valid() && disk.unit == PlainUnit && !Dependent() && Clear()
      modifies this`disk, this`history, this`crashed, this`proc
      ensures Passed()
      ensures disk.(password := None, stage := false) == old(disk).(password := None, stage := false)
      ensures disk.password == old(disk).password || disk.password == None
      ensures disk.stage ==> old(disk).stage
      ensures ok ==> disk == old(disk).(password := None, stage := false) && !crashed
      ensures old(Serene()) ==> ok && Serene()
    {
      DiskIsDurable();
      var canonical, canonicalOk := PutSecret(None, disk.stage);
      var stage, stageOk := PutSecret(disk.password, false);
      ok := canonicalOk && stageOk;
    }

    // The temporary file beside the drop-in, or a directory not yet of its final mode.
    method CreateDropTemp() returns (ok: bool)
      requires Valid()
      modifies this`unfit, this`crashed, this`proc
      ensures Passed()
      ensures ok ==> unfit && !crashed
      ensures old(calm && !crashed) ==> ok
    {
      var acts;
      acts, ok := Attempt();
      if acts {
        unfit := true;
      }
    }

    // Create, then rename. A kill in between, or a failing removal of the temporary, leaves a
    // directory that the inspection refuses; nothing ever clears it.
    method WriteVerifyDrop() returns (ok: bool)
      requires Valid()
      modifies this`disk, this`history, this`unfit, this`crashed, this`proc
      ensures Passed()
      ensures disk == old(disk) || disk == old(disk).(drop := true)
      ensures ok ==> disk == old(disk).(drop := true) && unfit == old(unfit) && !crashed
      ensures old(Serene()) ==> ok && Serene()
    {
      var fit, foreignMode: bool := !unfit, *;
      if !fit && foreignMode {
        return false;
      }
      var created := CreateDropTemp();
      var removed;
      ok, removed := PublishDropTemp(created);
      if fit && removed {
        unfit := false;
      }
    }

    // The rename, if everything before it succeeded, or else the removal of the temporary.
    method PublishDropTemp(created: bool) returns (ok: bool, removed: bool)
      requires Valid()
      modifies this`disk, this`history, this`crashed, this`proc
      ensures Passed()
      ensures disk == old(disk) || disk == old(disk).(drop := true)
      ensures ok ==> created && removed && disk == old(disk).(drop := true) && !crashed
      ensures created && old(calm && !crashed) ==> ok
    {
      ok, removed := false, false;
      if created {
        removed, ok := Attempt();
        if removed {
          DiskIsDurable();
          Commit(disk.(drop := true));
        }
      }
      if !removed {
        var reported;
        removed, reported := Attempt();
      }
    }

    // The directory is inspected first and goes with the drop-in. Without a directory there
    // is nothing to synchronize, which is an error.
    method RemoveVerifyDrop() returns (ok: bool)
      requires Valid()
      requires disk.unit == EnabledUnit ==> disk.password == Some(truth) && Proved()
      modifies this`disk, this`history, this`crashed, this`proc
      ensures Passed()
      ensures disk == old(disk) || disk == old(disk).(drop := false)
      ensures ok ==> disk == old(disk).(drop := false) && !crashed
      ensures unfit ==> !ok && disk == old(disk)
      ensures old(Serene() && disk.drop) ==> ok
      ensures old(Serene()) ==> Serene()
    {
      var acts;
      acts, ok := Attempt();
      var absent: bool := *;
      if unfit || (!disk.drop && absent) {
        return false;
      }
      if acts {
        DiskIsDurable();
        Commit(disk.(drop := false));
      }
    }

    method ValidateUnit() returns (ok: bool)
      requires Valid()
      modifies this`crashed, this`proc
      ensures Passed()
      ensures ok ==> !crashed
      ensures old(Serene()) ==> ok && Serene()
    {
      var _, reported := Attempt();
      ok := reported;
    }

    method DaemonReload() returns (ok: bool)
      requires Valid()
      modifies this`loaded, this`history, this`crashed, this`proc
      ensures Passed()
      ensures loaded == old(loaded) || loaded == Loaded(disk.unit, disk.drop)
      ensures ok ==> loaded == Loaded(disk.unit, disk.drop) && !crashed
      ensures old(Serene()) ==> ok && Serene()
    {
      var acts;
      acts, ok := Attempt();
      if acts {
        loaded := Loaded(disk.unit, disk.drop);
        Note(Reloaded);
      }
    }

    // A calm start of a stopped unit yields a new running invocation: a plain one waits
    // locked, one that unlocks itself is ready exactly if the stored password is right.
    method StartLND() returns (ok: bool)
      requires Valid()
      modifies this`proc, this`crashed, this`history
      ensures Ran() && Follows(old(proc), proc, loaded, disk.password)
      ensures ok ==> !crashed
      ensures old(Serene()) ==> Serene()
      ensures old(Serene() && proc.phase.Down?) ==>
        proc.invocation > old(proc.invocation) && StartsCalmly() && ok == proc.phase.Up?
    {
      var _, reported := Attempt();
      Note(Started);
      ok := reported;
      if Serene() && proc.phase.Down? {
        var opens := loaded.unit != EnabledUnit || disk.password == Some(truth);
        var wallet := if loaded.unit == EnabledUnit then RpcActive else Locked;
        proc := Process(proc.invocation + 1, if opens then Up(1) else Down,
                        ArgvOf(loaded.unit), disk.password, wallet);
        ok := opens;
      }
    }

    predicate StartsCalmly()
      reads this
    {
      && (loaded.unit == EnabledUnit ==>
            if disk.password == Some(truth)
            then proc.phase.Up? && proc.phase.pid > 0 && WalletStateMatches(proc.wallet, RpcActive)
            else proc.phase.Down?)
      && (loaded.unit == PlainUnit ==> proc.phase.Up? && proc.phase.pid > 0 && proc.wallet == Locked)
    }

    method StopLND() returns (ok: bool)
      requires Valid()
      modifies this`proc, this`crashed
      ensures Ran() && Follows(old(proc), proc, loaded, disk.password)
      ensures ok ==> !crashed
      ensures old(Clear()) ==> Clear()
      ensures !old(Dependent()) ==> !Dependent()
      ensures old(Serene()) ==> ok && Serene() && proc.phase.Down? && proc.invocation == old(proc.invocation)
    {
      var _, reported := Attempt();
      ok := reported;
      if Serene() {
        proc := proc.(phase := Down);
      }
    }

    method UnitStatus() returns (ok: bool, s: Status)
      requires Valid()
      modifies this`proc, this`crashed, this`history
      ensures Passed() && Follows(old(proc), proc, loaded, disk.password)
      ensures ok ==> Reports(s, proc, loaded) && !crashed
      ensures ok ==> |history| == |old(history)| + 1 && Last().what == Saw(s)
      ensures ok && ClearProof(history, |history| - 1) ==> Clear()
      ensures !ok ==> history == old(history)
      ensures old(Serene()) ==> Serene() && ok && ReportsCalmly(s, proc, loaded, disk)
    {
      var _, reported := Attempt();
      ok := reported;
      var up := proc.phase.Up?;
      s := Status(proc.invocation, if up then proc.phase.pid else 0, 0,
                  if up then Active else if proc.phase.Down? then Inactive else OtherActive,
                  if up then Running else OtherSub, false,
                  if loaded.drop then RestartNo else RestartOnFailure, true, true,
                  loaded != Loaded(disk.unit, disk.drop),
                  if loaded.drop then VerificationOnly else NoDropIn, ArgvOf(loaded.unit));
      var sample: Status := *;
      if Reports(sample, proc, loaded) && (calm ==> ReportsCalmly(sample, proc, loaded, disk)) {
        s := sample;
      }
      if ok {
        Note(Saw(s));
      }
    }

    // The argument vector of whatever process holds this PID now.
    method ProcessArgs(pid: nat) returns (ok: bool, args: Argv)
      requires Valid()
      modifies this`proc, this`crashed, this`history
      ensures Passed() && Follows(old(proc), proc, loaded, disk.password)
      ensures ok && proc.phase == Up(pid) ==> args == proc.argv
      ensures |history| == |old(history)| + 1
      ensures Last().what == ReadArgs(pid, if ok then Some(args) else None)
      ensures ok ==> !crashed
      ensures old(Serene()) ==> ok && Serene()
    {
      var _, reported := Attempt();
      ok, args := reported, *;
      if proc.phase == Up(pid) {
        args := proc.argv;
      }
      Note(ReadArgs(pid, if ok then Some(args) else None));
    }

    method WalletStateOf() returns (ok: bool, w: WalletState)
      requires Valid()
      modifies this`proc, this`crashed, this`history, this`seen
      ensures Passed() && Follows(old(proc), proc, loaded, disk.password)
      ensures ok ==> !proc.phase.Down? && w == proc.wallet && !crashed
      ensures ok && old(LastBracket(history)).Some? ==>
        var (invocation, argv) := old(LastBracket(history)).value;
        && seen == Some(Seen(|old(history)|, invocation, argv, w, loaded))
        && (argv == UnlockArgv && WalletStateMatches(w, RpcActive) && invocation > Last().began ==> Proved())
      ensures old(Serene() && proc.phase.Up?) ==> ok && Serene()
      ensures old(Serene()) ==> Serene()
    {
      var _, reported := Attempt();
      ok, w := reported && !proc.phase.Down?, proc.wallet;
      if ok {
        NoteWallet(w);
      }
    }

    method Now() returns (t: nat)
      modifies this`time
      ensures time >= old(time) && t == time
      ensures calm ==> time == old(time)
    {
      var passed: int := *;
      if !calm && passed > 0 {
        time := time + passed;
      }
      t := time;
    }

    method Sleep(d: nat)
      modifies this`time
      ensures time >= old(time) + d
    {
      time := time + d;
    }

    // The helper died or was killed, and possibly the host rebooted: PID 1 then reads the
    // files afresh and may start LND from them.
    method Recover(reboot: bool)
      requires Valid()
      modifies this`crashed, this`loaded, this`proc, this`history
      ensures Valid() && !crashed && old(history) <= history
    {
      crashed := false;
      if reboot {
        proc := proc.(phase := Down);
        loaded := Loaded(disk.unit, disk.drop);
        Note(Reloaded);
        Drift();
      }
    }
  }

  // writePassword refuses an empty password and one with a line break.
  predicate AcceptablePassword(p: string) {
    p != "" && '\r' !in p && '\n' !in p
  }
}
