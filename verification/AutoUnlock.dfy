/**
 Enabling and disabling LND auto-unlock (internal/installer/lnd_auto_unlock.go).

 Every method keeps `Ran()`: the durable state satisfies `Durable`, nothing that happened is
 forgotten, and every step of the history so far is a `SafeStep`, whatever fails and wherever
 the helper is killed. On top of that each outcome is tied to the state it claims and to the
 observations behind it, and a calm run of the operation that the configuration flag selects
 always succeeds.
 */
module AutoUnlock {
  import opened Basics
  import opened AutoUnlockWorld

  // The step a repair message names.
  datatype Stage =
    | AutomaticRecoveryAfterPasswordRejection
    | AutomaticReturnToLockedState
    | ClassifyInterruptedDisable
    | ConfirmDisabledStartingState
    | ConfirmDurableWalletPasswordRemoval
    | ConfirmWalletPasswordRemoval
    | FinishInterruptedDisable
    | InspectDisabledStartingState
    | InspectEnabledStartingState
    | InstallOneAttemptRestartPolicy
    | InstallPlainLndUnit
    | LoadDisabledStartingState
    | LoadPlainLndUnit
    | ObserveCurrentLndInvocation
    | ObserveRestoredLndInvocation
    | ProveLockedLndInvocation
    | PublishDisabledSetting
    | ReadNodeConfiguration
    | RecheckLockedLndInvocation
    | RemoveOneAttemptRestartPolicy
    | RemoveStaleWalletPassword
    | RemoveWalletPassword
    | RequireDisabledStartingState
    | RequireEnabledStartingState
    | RestoreDisabledLndInvocation
    | RestoreDisabledStartingState
    | RestoreNormalRestartPolicy
    | ValidatePlainLndUnit

  datatype Outcome =
    | AutoUnlockEnabled
    | AutoUnlockDisabled
    | VerificationFailed
    | VerificationTimedOut
    | StillEnabled
    | RepairRequired(failedStep: Stage)

  datatype Invocation = InvocationUnknown | InvocationReady | InvocationExited | StartTimedOut | ProofTimedOut

  // The three ways verifyStableProcessArgs can end.
  datatype Stability = Stable | InvocationChanged | Unproved

  function UnitFor(withUnlock: bool): Unit {
    if withUnlock then EnabledUnit else PlainUnit
  }

  function ExpectedArgs(withUnlock: bool): Argv {
    if withUnlock then UnlockArgv else PlainArgv
  }

  predicate VerifyLoadedUnit(s: Status, unit: Unit, restart: Restart, drop: bool) {
    && s.ownFragment && !s.needReload && s.notify
    && s.restart == restart
    && s.drops == (if drop then VerificationOnly else NoDropIn)
    && s.exec == ArgvOf(unit)
  }

  // What an earlier sample still says about the process now.
  predicate StillDescribes(s: Status, p: Process) {
    && s.invocation <= p.invocation
    && (StablyRunning(s) && s.invocation == p.invocation ==> p.phase == Up(s.mainPID) || p.phase.Down?)
  }

  // A live LND with these arguments whose wallet is in this state.
  predicate RunsAs(p: Process, withUnlock: bool, want: WalletState) {
    !p.phase.Down? && p.argv == ExpectedArgs(withUnlock) && WalletStateMatches(p.wallet, want)
  }

  // A newer LND runs as wanted.
  predicate Ready(p: Process, previousID: nat, withUnlock: bool, want: WalletState) {
    RunsAs(p, withUnlock, want) && p.phase.Up? && p.invocation > previousID
  }

  // Nothing fails, and the sampled plain LND still runs.
  predicate StillPlain(ops: Node, before: Status)
    reads ops
  {
    && ops.Serene() && ops.proc.phase.Up? && ops.proc.argv == PlainArgv
    && ops.proc.invocation == before.invocation && before.mainPID > 0
  }

  function ReadyState(withUnlock: bool): WalletState {
    if withUnlock then RpcActive else Locked
  }

  // The stored password was read and accepted, if what was just seen came from the enabled unit.
  ghost predicate Opens(ops: Node, withUnlock: bool, want: WalletState)
    reads ops
  {
    withUnlock && want == RpcActive && ops.loaded.unit == EnabledUnit ==> ops.disk.password == Some(ops.truth)
  }

  // Since instant `from` LND was seen with these arguments and in this wallet state, in an
  // invocation after `previousID`.
  ghost predicate Witnessed(ops: Node, from: nat, previousID: int, withUnlock: bool, want: WalletState)
    reads ops
  {
    && ops.seen.Some? && ops.seen.value.at >= from && ops.seen.value.invocation > previousID
    && ops.seen.value.argv == ExpectedArgs(withUnlock) && WalletStateMatches(ops.seen.value.wallet, want)
  }

  // ... and what that proves for this run.
  ghost predicate JustSeen(ops: Node, from: nat, previousID: int, withUnlock: bool, want: WalletState)
    reads ops
  {
    && Witnessed(ops, from, previousID, withUnlock, want)
    && (withUnlock && want == RpcActive && ops.history != [] && previousID >= ops.Last().began ==> ops.Proved())
    && (!withUnlock ==> ops.Clear())
  }

  // Since instant `from`, and under the normal restart policy, LND was seen as it should be.
  ghost predicate Observed(ops: Node, from: nat, previousID: int, withUnlock: bool)
    reads ops
  {
    && Witnessed(ops, from, previousID, withUnlock, ReadyState(withUnlock))
    && ops.seen.value.loaded == Loaded(UnitFor(withUnlock), false)
  }

  // The invocation that the last samples show to have exited, or to have been running and then
  // replaced or gone; 0 if they show none.
  function GoneInvocation(h: seq<Instant>): nat {
    var k := |h| - 1;
    if k < 0 || !h[k].what.Saw? then 0 else
    var t := h[k].what.status;
    if t.mainPID == 0 && !t.timedOut && (t.active == Failed || t.active == Inactive) then t.invocation
    else if k < 2 || !h[k - 2].what.Saw? then 0 else
    var s := h[k - 2].what.status;
    if StablyRunning(s) && !(StablyRunning(t) && t.invocation == s.invocation && t.mainPID == s.mainPID)
    then s.invocation else 0
  }

  // The invocation that the last sample shows to have timed out while starting, or 0.
  function TimedOutInvocation(h: seq<Instant>): nat {
    var k := |h| - 1;
    if k >= 0 && h[k].what.Saw? && h[k].what.status.mainPID == 0 && h[k].what.status.timedOut
    then h[k].what.status.invocation else 0
  }

  /* ---- Proofs about the running invocation ---- */

  // Success binds the argument vector read from /proc to the sampled invocation.
  method VerifyStableProcessArgs(ops: Node, before: Status, withUnlock: bool) returns (r: Stability)
    requires ops.Valid() && StillDescribes(before, ops.proc) && ops.Last().what == Saw(before)
    modifies ops`proc, ops`crashed, ops`history
    ensures ops.Passed()
    ensures r == Stable ==>
      && LastBracket(ops.history) == Some((before.invocation, ExpectedArgs(withUnlock))) && !ops.crashed
      && ops.proc.invocation == before.invocation && ops.proc.phase.Up? && ops.proc.argv == ExpectedArgs(withUnlock)
      && (!withUnlock ==> ops.Clear())
    ensures r == InvocationChanged ==> GoneInvocation(ops.history) >= before.invocation
    ensures old(ops.Serene()) ==> ops.Serene()
    ensures old(ops.Serene() && ops.proc.phase.Up? && ops.proc.invocation == before.invocation) ==>
      StablyRunning(before) ==>
      r == if ops.proc.argv == ExpectedArgs(withUnlock) then Stable else Unproved
  {
    if !StablyRunning(before) {
      return Unproved;
    }
    var argsOk, args := ops.ProcessArgs(before.mainPID);
    var afterOk, after := ops.UnitStatus();
    if !afterOk {
      return Unproved;
    }
    if after.invocation != before.invocation || after.mainPID != before.mainPID ||
       after.controlPID != 0 || after.active != Active || after.sub != Running
    {
      return InvocationChanged;
    }
    r := if argsOk && args == ExpectedArgs(withUnlock) then Stable else Unproved;
  }

  // walletState right after a stable proof: the two make a sighting.
  method ReadProvedWallet(ops: Node, proved: Status, withUnlock: bool) returns (ok: bool, wallet: WalletState)
    requires ops.Valid() && LastBracket(ops.history) == Some((proved.invocation, ExpectedArgs(withUnlock)))
    requires ops.proc.invocation == proved.invocation && ops.proc.argv == ExpectedArgs(withUnlock)
    requires !withUnlock ==> ops.Clear()
    modifies ops`proc, ops`crashed, ops`history, ops`seen
    ensures ops.Passed()
    ensures ok ==> !ops.crashed
    ensures ok ==>
      ops.seen == Some(Seen(|old(ops.history)|, proved.invocation, ExpectedArgs(withUnlock), wallet, ops.loaded))
    ensures ok && withUnlock && WalletStateMatches(wallet, RpcActive) ==>
      (proved.invocation > ops.Last().began ==> ops.Proved()) && Opens(ops, withUnlock, RpcActive)
    ensures ok && !withUnlock && ops.loaded.unit == PlainUnit ==> !ops.Dependent()
    ensures old(ops.Serene()) ==> ops.Serene()
    ensures old(ops.Serene() && ops.proc.phase.Up?) ==> ok && wallet == ops.proc.wallet
  {
    ok, wallet := ops.WalletStateOf();
  }

  // A new invocation with a main PID was sampled: its arguments and its wallet decide.
  method ProveStatus(ops: Node, status: Status, previousID: nat, withUnlock: bool, want: WalletState)
    returns (decisive: bool, outcome: Invocation, ok: bool)
    requires ops.Valid() && ops.Last().what == Saw(status) && Reports(status, ops.proc, ops.loaded)
    requires status.invocation > previousID
    modifies ops`proc, ops`crashed, ops`history, ops`seen
    ensures ops.Passed()
    ensures decisive && outcome == InvocationReady && ok ==>
      && JustSeen(ops, |old(ops.history)|, previousID, withUnlock, want)
      && Opens(ops, withUnlock, want) && !ops.crashed
    ensures decisive ==> outcome in {InvocationReady, InvocationExited}
    ensures decisive && outcome != InvocationReady ==> !ok
    ensures decisive && outcome == InvocationExited ==> GoneInvocation(ops.history) > previousID
    ensures old(ops.Serene()) ==> ops.Serene()
    ensures old(ops.Serene()) && RunsAs(ops.proc, withUnlock, want) && StablyRunning(status) ==>
      decisive && outcome == InvocationReady && ok
  {
    var stability := VerifyStableProcessArgs(ops, status, withUnlock);
    if stability != Stable {
      return true, if stability == InvocationChanged then InvocationExited else InvocationReady, false;
    }
    var wallet;
    ok, wallet := ReadProvedWallet(ops, status, withUnlock);
    decisive := ok && WalletStateMatches(wallet, want);
    outcome := if decisive then InvocationReady else InvocationUnknown;
  }

  // One poll. It is decisive only with evidence: of a new invocation in the wanted state, or
  // of one that is gone or timed out.
  method PollInvocation(ops: Node, previousID: nat, withUnlock: bool, want: WalletState)
    returns (decisive: bool, outcome: Invocation, ok: bool)
    requires ops.Valid() && previousID <= ops.proc.invocation
    modifies ops`proc, ops`crashed, ops`history, ops`seen
    ensures ops.Passed()
    ensures decisive && outcome == InvocationReady && ok ==>
      JustSeen(ops, |old(ops.history)|, previousID, withUnlock, want) && Opens(ops, withUnlock, want) && !ops.crashed
    ensures decisive ==> outcome in {InvocationReady, InvocationExited, StartTimedOut}
    ensures decisive && outcome != InvocationReady ==> !ok
    ensures decisive && outcome == InvocationExited ==> GoneInvocation(ops.history) > previousID
    ensures decisive && outcome == StartTimedOut ==> TimedOutInvocation(ops.history) > previousID
    ensures old(ops.Serene()) ==> ops.Serene()
    ensures old(ops.Serene()) && Ready(ops.proc, previousID, withUnlock, want) ==>
      decisive && outcome == InvocationReady && ok
    ensures old(ops.Serene()) && ops.proc.phase.Down? && ops.proc.invocation > previousID ==>
      decisive && outcome == InvocationExited
  {
    var statusOk, status := ops.UnitStatus();
    if statusOk && status.invocation != 0 && status.invocation != previousID {
      if status.mainPID == 0 {
        if status.timedOut {
          return true, StartTimedOut, false;
        }
        if status.active == Failed || status.active == Inactive {
          return true, InvocationExited, false;
        }
      } else {
        decisive, outcome, ok := ProveStatus(ops, status, previousID, withUnlock, want);
        return;
      }
    }
    return false, InvocationUnknown, statusOk;
  }

  // Polls until an invocation other than `previousID` is proved or has failed.
  method WaitForInvocation(ops: Node, previousID: nat, withUnlock: bool, want: WalletState, timeout: nat)
    returns (outcome: Invocation, ok: bool, ghost polls: nat)
    requires ops.Valid() && previousID <= ops.proc.invocation
    modifies ops`proc, ops`crashed, ops`time, ops`history, ops`seen
    ensures ops.Passed()
    ensures outcome == InvocationReady && ok ==>
      JustSeen(ops, |old(ops.history)|, previousID, withUnlock, want) && Opens(ops, withUnlock, want) && !ops.crashed
    ensures outcome in {InvocationReady, InvocationExited, StartTimedOut, ProofTimedOut}
    ensures outcome == InvocationExited ==> GoneInvocation(ops.history) > previousID
    ensures outcome == StartTimedOut ==> TimedOutInvocation(ops.history) > previousID
    ensures polls <= (timeout + POLL_INTERVAL - 1) / POLL_INTERVAL + 1
    ensures old(ops.Serene()) ==> ops.Serene()
    ensures old(ops.Serene()) && Ready(ops.proc, previousID, withUnlock, want) ==>
      outcome == InvocationReady && ok
    ensures old(ops.Serene()) && ops.proc.phase.Down? && ops.proc.invocation > previousID ==>
      outcome == InvocationExited
  {
    var start := ops.Now();
    var deadline := start + timeout;
    var lastOk := true;
    polls := 0;
    while true
      invariant ops.Passed()
      invariant old(ops.Serene()) ==> ops.Serene()
      invariant old(ops.Serene()) && polls > 0 && ops.proc.invocation > previousID ==>
        !Ready(ops.proc, previousID, withUnlock, want) && !ops.proc.phase.Down?
      invariant ops.time >= start + polls * POLL_INTERVAL
      invariant polls == 0 || (polls - 1) * POLL_INTERVAL < timeout
      decreases timeout + start + POLL_INTERVAL - ops.time
    {
      var decisive, ready;
      decisive, outcome, ready := PollInvocation(ops, previousID, withUnlock, want);
      polls := polls + 1;
      if decisive {
        return outcome, ready, polls;
      }
      lastOk := lastOk && ready;
      var now := ops.Now();
      if now >= deadline {
        return ProofTimedOut, lastOk, polls;
      }
      ops.Sleep(POLL_INTERVAL);
    }
  }

  // Success proves that the unit has neither a main nor a control process.
  method StopAndVerifyNoProcess(ops: Node) returns (ok: bool)
    requires ops.Valid()
    modifies ops`proc, ops`crashed, ops`history
    ensures ops.Ran()
    ensures ok ==> ops.Last().what.Saw? && NoProcess(ops.Last().what.status) && ops.Clear()
    ensures ok ==> ops.proc.phase.Down? && ops.loaded.drop && !ops.crashed
    ensures !old(ops.Dependent()) ==> !ops.Dependent()
    ensures old(ops.Serene()) ==> ops.Serene() && ops.proc.phase.Down? && ok == ops.loaded.drop
  {
    var stopOk := ops.StopLND();
    if !stopOk {
      return false;
    }
    var statusOk, status := ops.UnitStatus();
    ok := statusOk && status.restart == RestartNo && NoProcess(status);
  }

  method StartAndVerifyInvocation(ops: Node, previousID: nat, withUnlock: bool, want: WalletState)
    returns (startOk: bool, outcome: Invocation, verifyOk: bool)
    requires ops.Valid() && previousID <= ops.proc.invocation
    modifies ops`proc, ops`crashed, ops`time, ops`history, ops`seen
    ensures ops.Ran()
    ensures outcome == InvocationReady && verifyOk ==>
      JustSeen(ops, |old(ops.history)|, previousID, withUnlock, want) && Opens(ops, withUnlock, want) && !ops.crashed
    ensures !old(ops.Dependent()) && ops.loaded.unit == PlainUnit ==> !ops.Dependent()
    ensures old(ops.Serene()) ==> ops.Serene()
    ensures old(ops.Serene() && ops.proc.phase.Down? && ops.loaded.unit == UnitFor(withUnlock)) ==>
      want == ReadyState(withUnlock) ==>
      ops.proc.invocation > previousID &&
      if withUnlock && ops.disk.password != Some(ops.truth) then outcome == InvocationExited
      else outcome == InvocationReady && verifyOk && startOk && Ready(ops.proc, previousID, withUnlock, want)
  {
    var started := ops.Now();
    startOk := ops.StartLND();
    var returned := ops.Now();
    if returned - started > STARTUP_TIMEOUT {
      return startOk, StartTimedOut, false;
    }
    ghost var polls;
    outcome, verifyOk, polls := WaitForInvocation(ops, previousID, withUnlock, want, POSTCONDITION_TIMEOUT);
  }

  method StopStartAndVerifyInvocation(ops: Node, previousID: nat, withUnlock: bool, want: WalletState)
    returns (transitionOk: bool, outcome: Invocation, verifyOk: bool)
    requires ops.Valid() && previousID <= ops.proc.invocation
    modifies ops`proc, ops`crashed, ops`time, ops`history, ops`seen
    ensures ops.Ran()
    ensures transitionOk && outcome == InvocationReady && verifyOk ==>
      JustSeen(ops, |old(ops.history)|, previousID, withUnlock, want) && Opens(ops, withUnlock, want) && !ops.crashed
    ensures outcome != InvocationUnknown && ops.loaded.unit == PlainUnit ==> !ops.Dependent()
    ensures old(ops.Serene()) ==> ops.Serene()
    ensures old(ops.Serene()) && ops.loaded == Loaded(UnitFor(withUnlock), true) && want == ReadyState(withUnlock) ==>
      ops.proc.invocation > previousID &&
      if withUnlock && ops.disk.password != Some(ops.truth) then outcome == InvocationExited
      else outcome == InvocationReady && verifyOk && transitionOk && Ready(ops.proc, previousID, withUnlock, want)
  {
    var stopOk := StopAndVerifyNoProcess(ops);
    if !stopOk {
      return false, InvocationUnknown, true;
    }
    transitionOk, outcome, verifyOk := StartAndVerifyInvocation(ops, previousID, withUnlock, want);
  }

  function Excluded(previousID: Option<nat>): int {
    if previousID.Some? then previousID.value else -1
  }

  // A later look at the invocation: running, with these arguments, wallet in this state, and
  // not the excluded one. It covers verifySameReadyInvocation, verifySameLockedInvocation and,
  // with no previous invocation to exclude, verifyCurrentLockedInvocation.
  method VerifyInvocation(ops: Node, previousID: Option<nat>, withUnlock: bool) returns (ok: bool)
    requires ops.Valid() && (previousID.Some? ==> previousID.value <= ops.proc.invocation)
    modifies ops`proc, ops`crashed, ops`history, ops`seen
    ensures ops.Passed()
    ensures ok ==>
      && JustSeen(ops, |old(ops.history)|, Excluded(previousID), withUnlock, ReadyState(withUnlock))
      && ops.seen.value.loaded == ops.loaded && !ops.crashed
      && (!withUnlock && ops.loaded.unit == PlainUnit ==> !ops.Dependent())
    ensures old(ops.Serene()) ==> ops.Serene()
    ensures old(ops.Serene()) && RunsAs(ops.proc, withUnlock, ReadyState(withUnlock)) && ops.proc.phase.Up? ==>
      ok == (previousID != Some(ops.proc.invocation))
  {
    var statusOk, status := ops.UnitStatus();
    if !statusOk || status.invocation == 0 || previousID == Some(status.invocation) || status.mainPID == 0 {
      return false;
    }
    var stability := VerifyStableProcessArgs(ops, status, withUnlock);
    if stability != Stable {
      return false;
    }
    var walletOk, wallet := ReadProvedWallet(ops, status, withUnlock);
    ok := walletOk && WalletStateMatches(wallet, ReadyState(withUnlock));
  }

  /* ---- Steps shared by the two transitions ---- */

  method ReloadAndVerifyUnit(ops: Node, unit: Unit, restart: Restart, drop: bool) returns (ok: bool)
    requires ops.Valid() && unit != UnknownUnit
    modifies ops`loaded, ops`proc, ops`crashed, ops`history
    ensures ops.Passed()
    ensures ok ==> ops.loaded == Loaded(unit, drop) && !ops.crashed
    ensures ops.loaded == old(ops.loaded) || ops.loaded == Loaded(ops.disk.unit, ops.disk.drop)
    ensures old(ops.Serene()) ==> ops.Serene()
    ensures old(ops.Serene()) && ops.disk.unit == unit && ops.disk.drop == drop ==>
      ok == (restart == if drop then RestartNo else RestartOnFailure)
  {
    var reloadOk := ops.DaemonReload();
    if !reloadOk {
      return false;
    }
    var statusOk, status := ops.UnitStatus();
    ok := statusOk && VerifyLoadedUnit(status, unit, restart, drop);
  }

  method NormalizeDisabledUnit(ops: Node) returns (ok: bool)
    requires ops.Valid()
    modifies ops`disk, ops`history, ops`crashed, ops`proc
    ensures ops.Passed()
    ensures ops.disk == old(ops.disk) || ops.disk == old(ops.disk).(unit := PlainUnit)
    ensures ok ==> ops.disk == old(ops.disk).(unit := PlainUnit) && !ops.crashed
    ensures old(ops.Serene()) ==> ok && ops.Serene()
  {
    ok := ops.WriteUnit(PlainUnit);
    if ok {
      ok := ops.ValidateUnit();
    }
  }

  // Success means both password files are gone and no removal reported an error last.
  method RemovePasswordDurably(ops: Node) returns (ok: bool)
    requires ops.Valid() && ops.disk.unit == PlainUnit && !ops.Dependent() && ops.Clear()
    modifies ops`disk, ops`history, ops`crashed, ops`proc
    ensures ops.Passed()
    ensures ops.disk.(password := None, stage := false) == old(ops.disk).(password := None, stage := false)
    ensures ok ==> ops.disk == old(ops.disk).(password := None, stage := false) && !ops.crashed
    ensures old(ops.Serene()) ==> ok && ops.Serene()
  {
    var removeOk := ops.RemovePassword();
    var inspectOk, artifacts := ops.Artifacts();
    if !inspectOk || artifacts.password.Some? || artifacts.stage {
      return false;
    }
    ok := true;
    if !removeOk {
      ok := ops.RemovePassword();
    }
  }

  // Stops LND, removes the password while nothing can be using it, and starts LND locked.
  method ReplaceWithLockedPlainInvocation(ops: Node, previousID: nat) returns (ok: bool)
    requires ops.Valid() && ops.disk.unit == PlainUnit && ops.loaded.unit == PlainUnit
    requires previousID <= ops.proc.invocation
    modifies ops`disk, ops`history, ops`proc, ops`crashed, ops`time, ops`seen
    ensures ops.Ran()
    ensures ops.disk.(password := None, stage := false) == old(ops.disk).(password := None, stage := false)
    ensures ok ==> ops.disk == old(ops.disk).(password := None, stage := false) && !ops.crashed
    ensures ok ==> JustSeen(ops, |old(ops.history)|, previousID, false, Locked) && !ops.Dependent()
    ensures old(ops.Serene()) ==> ops.Serene()
    ensures old(ops.Serene()) && ops.loaded.drop ==>
      ok && RunsAs(ops.proc, false, Locked) && ops.proc.phase.Up? && ops.proc.invocation > previousID
  {
    var stopOk := StopAndVerifyNoProcess(ops);
    if !stopOk {
      return false;
    }
    var removeOk := RemovePasswordDurably(ops);
    var startOk, outcome, verifyOk := StartAndVerifyInvocation(ops, previousID, false, Locked);
    ok := startOk && verifyOk && outcome == InvocationReady && removeOk;
  }

  method VerifyDisabledDisk(ops: Node) returns (ok: bool)
    requires ops.Valid()
    modifies ops`crashed, ops`proc
    ensures ops.Passed()
    ensures ok ==> ops.disk == Disk(ops.disk.flag, PlainUnit, None, false, true) && !ops.crashed
    ensures old(ops.Serene()) ==> ops.Serene() && ok == (ops.disk == Disk(ops.disk.flag, PlainUnit, None, false, true))
  {
    var artifactsOk, a := ops.Artifacts();
    ok := artifactsOk && a.unit == PlainUnit && a.password == None && !a.stage && a.drop;
  }

  // saveConfig, where an error is forgiven if the setting reads back as wanted.
  method PublishFlag(ops: Node, flag: bool) returns (ok: bool)
    requires ops.Valid()
    requires flag && !ops.disk.flag ==> FullyEnabled(ops.disk.(flag := true), ops.truth) && ops.Proved()
    modifies ops`disk, ops`history, ops`crashed, ops`proc
    ensures ops.Passed()
    ensures ops.disk == old(ops.disk) || ops.disk == old(ops.disk).(flag := flag)
    ensures ok ==> ops.disk == old(ops.disk).(flag := flag) && !ops.crashed
    ensures old(ops.Serene()) ==> ok && ops.Serene()
  {
    ok := ops.SaveConfig(flag);
    if !ok {
      var loadOk, observed := ops.LoadConfig();
      ok := loadOk && observed == flag;
    }
  }

  // The plain unit, validated and loaded, behind the Restart=no drop-in.
  method LoadPlainBehindDrop(ops: Node) returns (ok: bool)
    requires ops.Valid()
    modifies ops`disk, ops`history, ops`loaded, ops`proc, ops`crashed, ops`unfit
    ensures ops.Passed()
    ensures ops.disk.(unit := PlainUnit, drop := true) == old(ops.disk).(unit := PlainUnit, drop := true)
    ensures old(ops.disk.unit) != UnknownUnit ==> ops.disk.unit != UnknownUnit
    ensures ok ==> ops.disk == old(ops.disk).(unit := PlainUnit, drop := true)
    ensures ok ==> ops.loaded == Loaded(PlainUnit, true) && !ops.crashed
    ensures old(ops.Serene()) ==> ok && ops.Serene()
  {
    ok := ops.WriteVerifyDrop();
    if !ok { return false; }
    ok := NormalizeDisabledUnit(ops);
    if !ok { return false; }
    ok := ReloadAndVerifyUnit(ops, PlainUnit, RestartNo, true);
  }

  // Back to the normal restart policy, with `unit` still installed and loaded.
  method RestoreRestartPolicy(ops: Node, unit: Unit) returns (ok: bool)
    requires ops.Valid() && unit != UnknownUnit
    requires ops.disk.unit == EnabledUnit ==> ops.disk.password == Some(ops.truth) && ops.Proved()
    modifies ops`disk, ops`history, ops`loaded, ops`proc, ops`crashed
    ensures ops.Passed()
    ensures ops.disk == old(ops.disk) || ops.disk == old(ops.disk).(drop := false)
    ensures ok ==> ops.disk == old(ops.disk).(drop := false) && ops.loaded == Loaded(unit, false) && !ops.crashed
    ensures old(ops.Serene()) ==> ops.Serene()
    ensures old(ops.Serene() && ops.disk.drop && ops.disk.unit == unit) ==> ok
    ensures ops.unfit ==> !ok
  {
    ok := ops.RemoveVerifyDrop();
    if !ok { return false; }
    ok := ReloadAndVerifyUnit(ops, unit, RestartOnFailure, false);
  }

  // Lowers the flag, then inspects that nothing of the enabled state is left on disk.
  method PublishDisabled(ops: Node) returns (ok: bool)
    requires ops.Valid()
    modifies ops`disk, ops`history, ops`crashed, ops`proc
    ensures ops.Passed()
    ensures ops.disk.(flag := false) == old(ops.disk).(flag := false)
    ensures ok ==> FullyDisabled(ops.disk) && !ops.crashed && !ops.unfit
    ensures old(ops.Serene()) ==> ops.Serene() && ok == FullyDisabled(old(ops.disk).(flag := false))
  {
    ok := PublishFlag(ops, false);
    if !ok { return false; }
    var finalOk, final := ops.Artifacts();
    ok := finalOk && final.unit == PlainUnit && final.password == None && !final.stage && !final.drop;
  }

  method EnsureLockedRuntime(ops: Node) returns (ok: bool)
    requires ops.Valid() && ops.loaded.unit == PlainUnit
    modifies ops`proc, ops`crashed, ops`time, ops`history, ops`seen
    ensures ops.Ran()
    ensures ok ==> JustSeen(ops, |old(ops.history)|, -1, false, Locked) && !ops.crashed
    ensures old(ops.Serene()) ==> ops.Serene()
    ensures old(ops.Serene()) && ops.loaded.drop ==> ok && RunsAs(ops.proc, false, Locked) && ops.proc.phase.Up?
  {
    var statusOk, status := ops.UnitStatus();
    if !statusOk {
      return false;
    }
    if status.mainPID > 0 {
      var stability := VerifyStableProcessArgs(ops, status, false);
      if stability == Stable {
        var walletOk, wallet := ReadProvedWallet(ops, status, false);
        if walletOk && wallet == Locked {
          return true;
        }
      }
    }
    var transitionOk, outcome, verifyOk := StopStartAndVerifyInvocation(ops, status.invocation, false, Locked);
    ok := transitionOk && verifyOk && outcome == InvocationReady;
  }

  /* ---- Rollbacks and completion ---- */

  method FinishDisabledAfterPasswordRemoval(ops: Node) returns (ok: bool)
    requires ops.Valid()
    modifies ops
    ensures ops.Ran() && ops.calm == old(ops.calm)
    ensures old(ops.disk.unit) != UnknownUnit ==> ops.disk.unit != UnknownUnit
    ensures old(ops.disk.password) == ops.disk.password
    ensures ok ==> FullyDisabled(ops.disk) && !ops.unfit && ops.loaded == Loaded(PlainUnit, false)
    ensures ok ==> Observed(ops, |old(ops.history)|, -1, false)
    ensures old(ops.Serene() && ops.disk.password == None && !ops.disk.stage) ==>
      ok && ops.Serene() && RunsAs(ops.proc, false, Locked)
  {
    ok := LoadPlainBehindDrop(ops);
    if !ok { return; }
    ok := EnsureLockedRuntime(ops);
    if !ok { return; }
    ok := SettleDisabled(ops, true, None);
  }

  // The branch of restoreDisabled that removes the candidate password: a touched runtime is
  // replaced by a locked one, an untouched one must still be the original plain invocation.
  method ReleasePassword(ops: Node, before: Status, runtimeTransitioned: bool) returns (ok: bool, lockedPreviousID: nat)
    requires ops.Valid() && ops.disk.unit == PlainUnit && ops.loaded == Loaded(PlainUnit, true)
    requires before.invocation <= ops.proc.invocation
    modifies ops`disk, ops`history, ops`proc, ops`crashed, ops`time, ops`seen
    ensures ops.Ran()
    ensures ops.disk.(password := None, stage := false) == old(ops.disk).(password := None, stage := false)
    ensures lockedPreviousID <= ops.proc.invocation
    ensures ok && runtimeTransitioned ==> old(ops.proc.invocation) <= lockedPreviousID
    ensures old(ops.Serene()) && runtimeTransitioned ==>
      && ok && ops.Serene() && RunsAs(ops.proc, false, Locked) && ops.proc.phase.Up?
      && ops.disk == Released(old(ops.disk)) && lockedPreviousID < ops.proc.invocation
    ensures old(StillPlain(ops, before)) ==> ok && ops.Serene()
    ensures old(StillPlain(ops, before)) && !runtimeTransitioned ==> ops.disk == Released(old(ops.disk))
  {
    ok, lockedPreviousID := true, 0;
    if runtimeTransitioned {
      var currentOk, current := ops.UnitStatus();
      if !currentOk { return false, 0; }
      lockedPreviousID := current.invocation;
      ok := ReplaceWithLockedPlainInvocation(ops, current.invocation);
    } else if before.mainPID > 0 {
      ok := ReleaseUntouched(ops, before);
    }
  }

  // The original plain invocation still runs, so the candidate password can go.
  method ReleaseUntouched(ops: Node, before: Status) returns (ok: bool)
    requires ops.Valid() && ops.disk.unit == PlainUnit && ops.loaded == Loaded(PlainUnit, true)
    requires before.invocation <= ops.proc.invocation
    modifies ops`disk, ops`history, ops`proc, ops`crashed
    ensures ops.Passed()
    ensures Released(ops.disk) == Released(old(ops.disk))
    ensures ok ==> ops.disk == Released(old(ops.disk)) && !ops.crashed
    ensures old(StillPlain(ops, before)) ==> ok && ops.Serene()
  {
    var currentOk, current := ops.UnitStatus();
    if !currentOk || current.invocation != before.invocation { return false; }
    var stability := VerifyStableProcessArgs(ops, current, false);
    if stability != Stable { return false; }
    ok := RemovePasswordDurably(ops);
  }

  function Released(d: Disk): Disk {
    d.(password := None, stage := false)
  }

  method RestoreDisabled(ops: Node, before: Status, runtimeTransitioned: bool) returns (ok: bool)
    requires ops.Valid() && before.invocation <= ops.proc.invocation
    modifies ops
    ensures ops.Ran() && ops.calm == old(ops.calm)
    ensures old(ops.disk.unit) != UnknownUnit ==> ops.disk.unit != UnknownUnit
    ensures ok ==> FullyDisabled(ops.disk) && !ops.unfit && ops.loaded == Loaded(PlainUnit, false)
    ensures ok && runtimeTransitioned ==>
      Observed(ops, |old(ops.history)|, old(ops.proc.invocation), false)
    ensures old(ops.Serene()) && runtimeTransitioned ==> ok && ops.Serene()
    ensures old(StillPlain(ops, before)) ==> ok && ops.Serene()
  {
    ok := LoadPlainBehindDrop(ops);
    if !ok { return; }
    var lockedPreviousID;
    ok, lockedPreviousID := ReleasePassword(ops, before, runtimeTransitioned);
    if !ok { return; }
    ok := SettleDisabled(ops, runtimeTransitioned, Some(lockedPreviousID));
  }

  // The end of both ways to the disabled state: the normal restart policy, a look at the LND
  // that has been started, if any, and the flag.
  method SettleDisabled(ops: Node, look: bool, previousID: Option<nat>) returns (ok: bool)
    requires ops.Valid() && ops.disk.unit == PlainUnit
    requires previousID.Some? ==> previousID.value <= ops.proc.invocation
    modifies ops`disk, ops`history, ops`loaded, ops`proc, ops`crashed, ops`seen
    ensures ops.Passed()
    ensures ops.disk.unit == PlainUnit && ops.disk.password == old(ops.disk.password)
    ensures ok ==> FullyDisabled(ops.disk) && !ops.unfit && ops.loaded == Loaded(PlainUnit, false)
    ensures ok && look ==> Observed(ops, |old(ops.history)|, Excluded(previousID), false)
    ensures old(ops.Serene() && Disabled(ops)) ==>
      (look ==> RunsAs(ops.proc, false, Locked) && ops.proc.phase.Up? && previousID != Some(ops.proc.invocation)) ==>
      ok && ops.Serene()
  {
    ok := RestoreRestartPolicy(ops, PlainUnit);
    if !ok { return; }
    if look {
      ok := VerifyInvocation(ops, previousID, false);
      if !ok { return; }
    }
    ok := PublishDisabled(ops);
  }

  predicate Disabled(ops: Node)
    reads ops
  {
    ops.disk.drop && ops.disk.unit == PlainUnit && ops.disk.password == None && !ops.disk.stage
  }

  // Reinstalls the enabled unit and proves it anew before the drop-in goes.
  method RestoreEnabled(ops: Node) returns (ok: bool)
    requires ops.Valid() && ops.disk.flag
    modifies ops
    ensures ops.Ran() && ops.calm == old(ops.calm)
    ensures old(ops.disk.unit) != UnknownUnit ==> ops.disk.unit != UnknownUnit
    ensures ok ==> FullyEnabled(ops.disk, ops.truth) && !ops.unfit
    ensures ok ==> ops.loaded == Loaded(EnabledUnit, false) && ops.Proved()
    ensures ok ==> Observed(ops, |old(ops.history)|, old(ops.proc.invocation), true)
    ensures old(ops.Serene() && ops.disk.password == Some(ops.truth)) ==> ok
  {
    var artifactsOk, artifacts := ops.Artifacts();
    if !artifactsOk || artifacts.password == None { return false; }
    ops.DiskIsDurable();
    ok := InstallEnabledUnit(ops);
    if !ok { return; }
    ok := ReproveEnabled(ops);
    if !ok { return; }
    ok := PublishFlag(ops, true);
  }

  // The part of restoreEnabled between the loaded enabled unit and the flag.
  method ReproveEnabled(ops: Node) returns (ok: bool)
    requires ops.Valid() && ops.loaded == Loaded(EnabledUnit, true) && ops.disk.unit == EnabledUnit
    modifies ops`disk, ops`history, ops`loaded, ops`proc, ops`crashed, ops`time, ops`seen
    ensures ops.Ran()
    ensures ops.disk == old(ops.disk) || ops.disk == old(ops.disk).(drop := false)
    ensures ok ==> ops.disk == old(ops.disk).(drop := false) && ops.disk.password == Some(ops.truth)
    ensures ok ==> ops.loaded == Loaded(EnabledUnit, false) && ops.Proved()
    ensures ok ==> Observed(ops, |old(ops.history)|, old(ops.proc.invocation), true)
    ensures old(ops.Serene() && ops.disk.drop && ops.disk.password == Some(ops.truth)) ==> ok && ops.Serene()
    ensures ok ==> !ops.unfit
  {
    var beforeOk, before := ops.UnitStatus();
    if !beforeOk { return false; }
    var transitionOk, outcome, verifyOk := StopStartAndVerifyInvocation(ops, before.invocation, true, RpcActive);
    if !transitionOk || !verifyOk || outcome != InvocationReady { return false; }
    ok := RestoreRestartPolicy(ops, EnabledUnit);
    if !ok { return; }
    ok := VerifyInvocation(ops, Some(before.invocation), true);
  }

  // The enabled unit, validated and loaded, behind the Restart=no drop-in.
  method InstallEnabledUnit(ops: Node) returns (ok: bool)
    requires ops.Valid() && ops.disk.password.Some?
    modifies ops`disk, ops`history, ops`loaded, ops`proc, ops`crashed, ops`unfit
    ensures ops.Passed()
    ensures ops.disk.(unit := EnabledUnit, drop := true) == old(ops.disk).(unit := EnabledUnit, drop := true)
    ensures old(ops.disk.unit) != UnknownUnit ==> ops.disk.unit != UnknownUnit
    ensures ok ==> ops.disk == old(ops.disk).(unit := EnabledUnit, drop := true)
    ensures ok ==> ops.loaded == Loaded(EnabledUnit, true) && !ops.crashed
    ensures old(ops.Serene()) ==> ok && ops.Serene()
  {
    ok := ops.WriteVerifyDrop();
    if !ok { return false; }
    ok := ops.WriteUnit(EnabledUnit);
    if !ok { return false; }
    ok := ops.ValidateUnit();
    if !ok { return false; }
    ok := ReloadAndVerifyUnit(ops, EnabledUnit, RestartNo, true);
  }

  method RestoreEnabledResult(ops: Node, failedStage: Stage) returns (r: Outcome)
    requires ops.Valid() && ops.disk.flag
    modifies ops
    ensures ops.Ran() && ops.calm == old(ops.calm)
    ensures old(ops.disk.unit) != UnknownUnit ==> ops.disk.unit != UnknownUnit
    ensures r == StillEnabled || r == RepairRequired(failedStage)
    ensures r == StillEnabled ==> StillInForce(ops, |old(ops.history)|)
    ensures old(ops.Serene() && ops.disk.password == Some(ops.truth)) ==> r == StillEnabled
  {
    var ok;
    ok := RestoreEnabled(ops);
    r := if ok then StillEnabled else RepairRequired(failedStage);
  }

  // The complete enabled state, under which this run saw LND past its wallet.
  ghost predicate StillInForce(ops: Node, from: nat)
    reads ops
  {
    && FullyEnabled(ops.disk, ops.truth) && !ops.unfit && ops.loaded == Loaded(EnabledUnit, false) && ops.Proved()
    && Observed(ops, from, -1, true)
  }

  // The complete disabled state, under which this run saw LND waiting locked.
  ghost predicate Finished(ops: Node, from: nat)
    reads ops
  {
    && FullyDisabled(ops.disk) && !ops.unfit && ops.loaded == Loaded(PlainUnit, false)
    && Observed(ops, from, -1, false)
  }

  /* ---- The two transitions ---- */

  // The rollback of enableAutoUnlock: the outcome stands only if recovery succeeded.
  method FailEnable(ops: Node, before: Status, runtimeTransitioned: bool, outcome: Outcome, recoveryStage: Stage)
    returns (r: Outcome)
    requires ops.Valid() && before.invocation <= ops.proc.invocation
    requires outcome in {VerificationFailed, VerificationTimedOut}
    modifies ops
    ensures ops.Ran() && ops.calm == old(ops.calm)
    ensures old(ops.disk.unit) != UnknownUnit ==> ops.disk.unit != UnknownUnit
    ensures r == outcome || r == RepairRequired(recoveryStage)
    ensures !r.RepairRequired? ==> FullyDisabled(ops.disk) && !ops.unfit && ops.loaded == Loaded(PlainUnit, false)
    ensures !r.RepairRequired? && runtimeTransitioned ==> Finished(ops, |old(ops.history)|)
    ensures old(ops.Serene()) && runtimeTransitioned ==> r == outcome && ops.Serene()
    ensures old(StillPlain(ops, before)) ==> r == outcome && ops.Serene()
  {
    var ok;
    ok := RestoreDisabled(ops, before, runtimeTransitioned);
    r := if ok then outcome else RepairRequired(recoveryStage);
  }

  // `touched` says whether LND was stopped or started.
  method EnableAutoUnlock(password: string, ops: Node) returns (r: Outcome, ghost touched: bool)
    requires ops.Valid()
    modifies ops
    ensures ops.Valid() && old(ops.history) <= ops.history && ops.calm == old(ops.calm)
    ensures old(ops.unfit) ==> ops.unfit
    ensures old(ops.disk.unit) != UnknownUnit ==> ops.disk.unit != UnknownUnit
    ensures r in {AutoUnlockEnabled, VerificationFailed, VerificationTimedOut} || r.RepairRequired?
    // outcomes are honest
    ensures r == AutoUnlockEnabled ==>
      && FullyEnabled(ops.disk, ops.truth) && !ops.unfit && ops.disk.password == Some(password)
      && ops.loaded == Loaded(EnabledUnit, false) && ops.Proved()
      && Observed(ops, |old(ops.history)|, old(ops.proc.invocation), true)
    ensures r in {VerificationFailed, VerificationTimedOut} ==>
      && FullyDisabled(ops.disk) && !ops.unfit && ops.loaded == Loaded(PlainUnit, false)
      && (touched ==> Finished(ops, |old(ops.history)|))
    ensures old(ops.disk.flag || ops.disk.unit == UnknownUnit || ops.unfit) ==>
      r.RepairRequired? && ops.disk == old(ops.disk)
    // a calm run without such a leftover decides by the password alone
    ensures old(ops.Serene() && !ops.disk.flag && ops.disk.unit != UnknownUnit) ==>
      r == if AcceptablePassword(password) && password == ops.truth then AutoUnlockEnabled else VerificationFailed
  {
    touched := false;
    ops.BeginRun();
    var cfgOk, flag := ops.LoadConfig();
    if !cfgOk { return RepairRequired(ReadNodeConfiguration), touched; }
    if flag { return RepairRequired(RequireDisabledStartingState), touched; }
    var artifactsOk, artifacts := ops.Artifacts();
    if !artifactsOk || artifacts.unit == UnknownUnit {
      return RepairRequired(InspectDisabledStartingState), touched;
    }
    var ok := ops.WriteVerifyDrop();
    if !ok { return RepairRequired(InstallOneAttemptRestartPolicy), touched; }
    ok := NormalizeDisabledUnit(ops);
    if !ok { return RepairRequired(RestoreDisabledStartingState), touched; }
    ok := ReloadAndVerifyUnit(ops, PlainUnit, RestartNo, true);
    if !ok { return RepairRequired(LoadDisabledStartingState), touched; }
    r, touched := TryPassword(ops, password);
  }

  // enableAutoUnlock from the loaded plain unit on.
  method TryPassword(ops: Node, password: string) returns (r: Outcome, ghost touched: bool)
    requires ops.Valid() && ops.loaded == Loaded(PlainUnit, true)
    requires !ops.disk.flag && ops.disk.unit == PlainUnit && ops.disk.drop
    modifies ops
    ensures ops.Ran() && ops.calm == old(ops.calm) && ops.disk.unit != UnknownUnit
    ensures r in {AutoUnlockEnabled, VerificationFailed, VerificationTimedOut} || r.RepairRequired?
    ensures r == AutoUnlockEnabled ==>
      && FullyEnabled(ops.disk, ops.truth) && !ops.unfit && ops.disk.password == Some(password)
      && ops.loaded == Loaded(EnabledUnit, false) && ops.Proved()
      && Observed(ops, |old(ops.history)|, old(ops.proc.invocation), true)
    ensures r in {VerificationFailed, VerificationTimedOut} ==>
      && FullyDisabled(ops.disk) && !ops.unfit && ops.loaded == Loaded(PlainUnit, false)
      && (touched ==> Finished(ops, |old(ops.history)|))
    ensures old(ops.Serene()) ==>
      r == if AcceptablePassword(password) && password == ops.truth then AutoUnlockEnabled else VerificationFailed
  {
    touched := false;
    var before, failure := ReachLockedBaseline(ops);
    if failure.Some? { return RepairRequired(failure.value), touched; }
    var ok := InstallCandidate(ops, password);
    if !ok {
      r := FailEnable(ops, before, false, VerificationFailed, AutomaticReturnToLockedState);
      return r, touched;
    }
    touched := true;
    r := ProveAndPublish(ops, before);
  }

  // writePassword, the enabled unit, its validation and its loading; any of them may fail.
  method InstallCandidate(ops: Node, password: string) returns (ok: bool)
    requires ops.Valid() && ops.disk == Disk(false, PlainUnit, None, false, true) && !ops.Dependent() && ops.Clear()
    modifies ops`disk, ops`history, ops`loaded, ops`proc, ops`crashed
    ensures ops.Passed()
    ensures ops.disk.unit != UnknownUnit && !ops.disk.flag
    ensures ok ==> ops.disk == Disk(false, EnabledUnit, Some(password), false, true)
    ensures ok ==> ops.loaded == Loaded(EnabledUnit, true)
    ensures old(ops.Serene()) ==> ops.Serene() && ok == AcceptablePassword(password)
  {
    ok := ops.WritePassword(password);
    if !ok { return false; }
    ok := ops.WriteUnit(EnabledUnit);
    if !ok { return false; }
    ok := ops.ValidateUnit();
    if !ok { return false; }
    ok := ReloadAndVerifyUnit(ops, EnabledUnit, RestartNo, true);
  }

  // The middle of enableAutoUnlock: from a loaded plain unit to a disk without any password
  // and no LND that could need one. A failure names the step for the repair message.
  method ReachLockedBaseline(ops: Node) returns (before: Status, failure: Option<Stage>)
    requires ops.Valid() && ops.loaded == Loaded(PlainUnit, true)
    requires ops.disk.unit == PlainUnit && ops.disk.drop
    modifies ops`disk, ops`history, ops`proc, ops`crashed, ops`time, ops`seen
    ensures ops.Ran()
    ensures ops.disk.(password := None, stage := false) == old(ops.disk).(password := None, stage := false)
    ensures failure == None ==>
      && ops.disk == Disk(old(ops.disk.flag), PlainUnit, None, false, true) && !ops.Dependent() && ops.Clear()
      && old(ops.proc.invocation) <= before.invocation <= ops.proc.invocation
    ensures old(ops.Serene()) ==>
      && failure == None && ops.Serene()
      && ops.proc.phase.Up? && ops.proc.argv == PlainArgv && before.mainPID > 0
      && ops.proc.invocation == before.invocation
  {
    var statusOk;
    statusOk, before := ops.UnitStatus();
    if !statusOk { return before, Some(ObserveCurrentLndInvocation); }
    before, failure := EmptyPasswordStore(ops, before);
    if failure.Some? { return; }
    var ok := VerifyDisabledDisk(ops);
    failure := if ok then None else Some(ConfirmDisabledStartingState);
  }

  // A stable plain LND may keep running without the password; any other is replaced.
  method EmptyPasswordStore(ops: Node, sample: Status) returns (before: Status, failure: Option<Stage>)
    requires ops.Valid() && ops.loaded == Loaded(PlainUnit, true) && ops.disk.unit == PlainUnit
    requires ops.Last().what == Saw(sample) && Reports(sample, ops.proc, ops.loaded)
    modifies ops`disk, ops`history, ops`proc, ops`crashed, ops`time, ops`seen
    ensures ops.Ran()
    ensures Released(ops.disk) == Released(old(ops.disk))
    ensures failure == None ==> !ops.Dependent() && ops.Clear() && ops.disk == Released(old(ops.disk))
    ensures failure == None ==> sample.invocation <= before.invocation <= ops.proc.invocation
    ensures old(ops.Serene() && ReportsCalmly(sample, ops.proc, ops.loaded, ops.disk)) ==>
      && failure == None && ops.Serene()
      && ops.proc.phase.Up? && ops.proc.argv == PlainArgv && before.mainPID > 0
      && ops.proc.invocation == before.invocation
  {
    before, failure := sample, None;
    var stability := Unproved;
    if before.mainPID != 0 {
      stability := VerifyStableProcessArgs(ops, before, false);
    }
    if before.mainPID == 0 || stability != Stable {
      before, failure := ReplaceAndObserve(ops, before);
    } else {
      var ok := RemovePasswordDurably(ops);
      failure := if ok then None else Some(RemoveStaleWalletPassword);
    }
  }

  // Converges an LND left over by an interrupted enable, and samples the new one.
  method ReplaceAndObserve(ops: Node, previous: Status) returns (before: Status, failure: Option<Stage>)
    requires ops.Valid() && ops.disk.unit == PlainUnit && ops.loaded == Loaded(PlainUnit, true)
    requires previous.invocation <= ops.proc.invocation
    modifies ops`disk, ops`history, ops`proc, ops`crashed, ops`time, ops`seen
    ensures ops.Ran()
    ensures ops.disk.(password := None, stage := false) == old(ops.disk).(password := None, stage := false)
    ensures failure == None ==> !ops.Dependent() && ops.Clear() && ops.disk == Released(old(ops.disk))
    ensures failure == None ==> old(ops.proc.invocation) <= before.invocation <= ops.proc.invocation
    ensures old(ops.Serene()) ==>
      && failure == None && ops.Serene()
      && ops.proc.phase.Up? && ops.proc.argv == PlainArgv && before.mainPID > 0
      && ops.proc.invocation == before.invocation
  {
    before := previous;
    var ok := ReplaceWithLockedPlainInvocation(ops, previous.invocation);
    if !ok { return before, Some(RestoreDisabledLndInvocation); }
    ok, before := ops.UnitStatus();
    failure := if ok then None else Some(ObserveRestoredLndInvocation);
  }

  // One start decides, and only a proved newer invocation leads to the drop-in being removed
  // and the flag being raised. A failure carries the outcome and the name of its recovery.
  method ProveCandidate(ops: Node, before: Status) returns (failure: Option<(Outcome, Stage)>)
    requires ops.Valid() && ops.loaded == Loaded(EnabledUnit, true)
    requires !ops.disk.flag && ops.disk.unit == EnabledUnit && ops.disk.drop && !ops.disk.stage
    requires ops.Last().began <= before.invocation <= ops.proc.invocation
    modifies ops`disk, ops`history, ops`loaded, ops`proc, ops`crashed, ops`time, ops`seen
    ensures ops.Ran()
    ensures ops.disk.(flag := false, drop := true) == old(ops.disk)
    ensures failure.Some? ==> failure.value.0 in {VerificationFailed, VerificationTimedOut}
    ensures failure == None ==>
      && FullyEnabled(ops.disk, ops.truth) && !ops.unfit && ops.loaded == Loaded(EnabledUnit, false) && ops.Proved()
      && Observed(ops, |old(ops.history)|, before.invocation, true)
    ensures old(ops.Serene()) ==> ops.Serene() && (failure == None <==> old(ops.disk.password) == Some(ops.truth))
    ensures old(ops.Serene()) && failure.Some? ==> failure.value.0 == VerificationFailed
  {
    failure := Some((VerificationFailed, AutomaticReturnToLockedState));
    var transitionOk, invocation, verifyOk := StopStartAndVerifyInvocation(ops, before.invocation, true, RpcActive);
    if invocation == InvocationExited {
      return Some((VerificationFailed, AutomaticRecoveryAfterPasswordRejection));
    }
    if invocation == StartTimedOut {
      return Some((VerificationTimedOut, AutomaticReturnToLockedState));
    }
    if !transitionOk || !verifyOk || invocation != InvocationReady { return; }
    var ok;
    ok := PublishProved(ops, before.invocation);
    if ok {
      failure := None;
    }
  }

  // The end of enableAutoUnlock: the drop-in goes, LND is looked at again, the flag is raised.
  method PublishProved(ops: Node, previousID: nat) returns (ok: bool)
    requires ops.Valid() && ops.Proved() && previousID <= ops.proc.invocation
    requires ops.disk.unit == EnabledUnit && ops.disk.drop && !ops.disk.stage && ops.disk.password == Some(ops.truth)
    modifies ops`disk, ops`history, ops`loaded, ops`proc, ops`crashed, ops`seen
    ensures ops.Passed()
    ensures ops.disk.(flag := false, drop := true) == old(ops.disk).(flag := false)
    ensures ok ==>
      && FullyEnabled(ops.disk, ops.truth) && !ops.unfit && ops.loaded == Loaded(EnabledUnit, false)
      && Observed(ops, |old(ops.history)|, previousID, true)
    ensures old(ops.Serene()) && Ready(ops.proc, previousID, true, RpcActive) ==>
      ok && ops.Serene()
  {
    ok := RestoreRestartPolicy(ops, EnabledUnit);
    if !ok { return; }
    ok := VerifyInvocation(ops, Some(previousID), true);
    if !ok { return; }
    ok := ops.SaveConfig(true);
    if !ok { return; }
    var publishedOk, published := ops.LoadConfig();
    ok := publishedOk && published;
  }

  method ProveAndPublish(ops: Node, before: Status) returns (r: Outcome)
    requires ops.Valid() && ops.loaded == Loaded(EnabledUnit, true)
    requires !ops.disk.flag && ops.disk.unit == EnabledUnit && ops.disk.drop && !ops.disk.stage
    requires ops.Last().began <= before.invocation <= ops.proc.invocation
    modifies ops
    ensures ops.Ran() && ops.calm == old(ops.calm) && ops.disk.unit != UnknownUnit
    ensures r in {AutoUnlockEnabled, VerificationFailed, VerificationTimedOut} || r.RepairRequired?
    ensures r == AutoUnlockEnabled ==>
      && FullyEnabled(ops.disk, ops.truth) && !ops.unfit && ops.disk.password == old(ops.disk.password)
      && ops.loaded == Loaded(EnabledUnit, false) && ops.Proved()
      && Observed(ops, |old(ops.history)|, before.invocation, true)
    ensures r in {VerificationFailed, VerificationTimedOut} ==> Finished(ops, |old(ops.history)|)
    ensures old(ops.Serene()) ==>
      r == if old(ops.disk.password) == Some(ops.truth) then AutoUnlockEnabled else VerificationFailed
  {
    var failure;
    failure := ProveCandidate(ops, before);
    if failure == None {
      return AutoUnlockEnabled;
    }
    r := FailEnable(ops, before, true, failure.value.0, failure.value.1);
  }

  method DisableAutoUnlockTransition(ops: Node) returns (r: Outcome)
    requires ops.Valid()
    modifies ops
    ensures ops.Valid() && old(ops.history) <= ops.history && ops.calm == old(ops.calm)
    ensures old(ops.unfit) ==> ops.unfit
    ensures old(ops.disk.unit) != UnknownUnit ==> ops.disk.unit != UnknownUnit
    ensures r in {AutoUnlockDisabled, StillEnabled} || r.RepairRequired?
    // outcomes are honest
    ensures r == AutoUnlockDisabled ==> Finished(ops, |old(ops.history)|)
    ensures r == StillEnabled ==> StillInForce(ops, |old(ops.history)|)
    ensures r != RepairRequired(ClassifyInterruptedDisable)
    ensures old(!ops.disk.flag || ops.disk.unit == UnknownUnit || ops.unfit) ==>
      r.RepairRequired? && ops.disk == old(ops.disk)
    // a calm run without such a leftover always finishes
    ensures old(ops.Serene() && ops.disk.flag && ops.disk.unit != UnknownUnit) ==> r == AutoUnlockDisabled
  {
    ops.BeginRun();
    var cfgOk, flag := ops.LoadConfig();
    if !cfgOk { return RepairRequired(ReadNodeConfiguration); }
    if !flag { return RepairRequired(RequireEnabledStartingState); }
    var artifactsOk, artifacts := ops.Artifacts();
    if !artifactsOk || artifacts.unit == UnknownUnit {
      return RepairRequired(InspectEnabledStartingState);
    }
    ops.DiskIsDurable();
    if artifacts.password == None {
      if artifacts.unit != PlainUnit {
        return RepairRequired(ClassifyInterruptedDisable);
      }
      var finished;
      finished := FinishDisabledAfterPasswordRemoval(ops);
      return if finished then AutoUnlockDisabled else RepairRequired(FinishInterruptedDisable);
    }

    r := RemoveProvedPassword(ops);
  }

  // disableAutoUnlockTransition while the password is still there.
  method RemoveProvedPassword(ops: Node) returns (r: Outcome)
    requires ops.Valid() && ops.disk.flag && ops.disk.unit != UnknownUnit
    modifies ops
    ensures ops.Ran() && ops.calm == old(ops.calm) && ops.disk.unit != UnknownUnit
    ensures r in {AutoUnlockDisabled, StillEnabled} || r.RepairRequired?
    ensures r == AutoUnlockDisabled ==> Finished(ops, |old(ops.history)|)
    ensures r == StillEnabled ==> StillInForce(ops, |old(ops.history)|)
    ensures r != RepairRequired(ClassifyInterruptedDisable)
    ensures old(ops.Serene()) ==> r == AutoUnlockDisabled
  {
    var ok := ops.WriteVerifyDrop();
    if !ok { return RepairRequired(InstallOneAttemptRestartPolicy); }
    var failure := InstallPlainUnit(ops);
    if failure == None {
      failure := ProveLocked(ops);
    }
    if failure.Some? {
      r := RestoreEnabledResult(ops, failure.value);
      return;
    }
    ghost var gone;
    r, gone := RemovePasswordAndFinish(ops);
  }

  // The plain unit behind the drop-in. A failure names the step for the repair message.
  method InstallPlainUnit(ops: Node) returns (failure: Option<Stage>)
    requires ops.Valid() && ops.disk.drop
    modifies ops`disk, ops`history, ops`loaded, ops`proc, ops`crashed
    ensures ops.Passed()
    ensures ops.disk == old(ops.disk) || ops.disk == old(ops.disk).(unit := PlainUnit)
    ensures failure == None ==> ops.disk.unit == PlainUnit && ops.loaded == Loaded(PlainUnit, true)
    ensures failure != Some(ClassifyInterruptedDisable)
    ensures old(ops.Serene()) ==> failure == None && ops.Serene()
  {
    var ok := ops.WriteUnit(PlainUnit);
    if !ok { return Some(InstallPlainLndUnit); }
    ok := ops.ValidateUnit();
    if !ok { return Some(ValidatePlainLndUnit); }
    ok := ReloadAndVerifyUnit(ops, PlainUnit, RestartNo, true);
    failure := if ok then None else Some(LoadPlainLndUnit);
  }

  // A locked LND under the plain unit and the normal restart policy, in an invocation newer
  // than the one before. A failure names the step for the repair message.
  method ProveLocked(ops: Node) returns (failure: Option<Stage>)
    requires ops.Valid() && ops.loaded == Loaded(PlainUnit, true) && ops.disk.unit == PlainUnit
    modifies ops`disk, ops`history, ops`loaded, ops`proc, ops`crashed, ops`time, ops`seen
    ensures ops.Ran()
    ensures ops.disk == old(ops.disk) || ops.disk == old(ops.disk).(drop := false)
    ensures failure == None ==>
      Observed(ops, |old(ops.history)|, old(ops.proc.invocation), false) && !ops.Dependent() && ops.Clear()
    ensures failure != Some(ClassifyInterruptedDisable)
    ensures old(ops.Serene() && ops.disk.drop) ==> failure == None && ops.Serene()
  {
    var beforeOk, before := ops.UnitStatus();
    if !beforeOk { return Some(ObserveCurrentLndInvocation); }
    var transitionOk, invocation, verifyOk := StopStartAndVerifyInvocation(ops, before.invocation, false, Locked);
    if !transitionOk || invocation != InvocationReady || !verifyOk {
      return Some(ProveLockedLndInvocation);
    }
    var ok := ops.RemoveVerifyDrop();
    if !ok { return Some(RemoveOneAttemptRestartPolicy); }
    ok := ReloadAndVerifyUnit(ops, PlainUnit, RestartOnFailure, false);
    if !ok { return Some(RestoreNormalRestartPolicy); }
    ok := VerifyInvocation(ops, Some(before.invocation), false);
    failure := if ok then None else Some(RecheckLockedLndInvocation);
  }

  // From the commit point on: an observed absence is finished, never undone.
  method RemovePasswordAndFinish(ops: Node) returns (r: Outcome, ghost gone: bool)
    requires ops.Valid() && ops.disk.flag && ops.disk.unit == PlainUnit && !ops.Dependent() && ops.Clear()
    modifies ops
    ensures ops.Ran() && ops.calm == old(ops.calm) && ops.disk.unit != UnknownUnit
    ensures r in {AutoUnlockDisabled, StillEnabled} || r.RepairRequired?
    ensures r == AutoUnlockDisabled ==> Finished(ops, |old(ops.history)|)
    ensures r == StillEnabled ==> StillInForce(ops, |old(ops.history)|)
    ensures r != RepairRequired(ClassifyInterruptedDisable)
    // an absence that was observed is final
    ensures gone ==> ops.disk.password == None && r != StillEnabled
    ensures r == AutoUnlockDisabled ==> gone
    ensures old(ops.Serene()) ==> r == AutoUnlockDisabled
  {
    var removeOk := ops.RemovePassword();
    var inspectOk, afterRemoval := ops.Artifacts();
    gone := inspectOk && afterRemoval.password == None;
    if !inspectOk { return RepairRequired(ConfirmWalletPasswordRemoval), gone; }
    if afterRemoval.password.Some? { r := RestoreEnabledResult(ops, RemoveWalletPassword); return; }
    r := FinishRemoval(ops, removeOk);
  }

  // The password is seen to be gone: only Disabled or a repair request is left.
  method FinishRemoval(ops: Node, removeOk: bool) returns (r: Outcome)
    requires ops.Valid() && ops.disk.unit == PlainUnit && ops.disk.password == None && !ops.Dependent() && ops.Clear()
    modifies ops
    ensures ops.Ran() && ops.calm == old(ops.calm) && ops.disk.unit != UnknownUnit
    ensures r == AutoUnlockDisabled || r.RepairRequired?
    ensures ops.disk.password == None
    ensures r == AutoUnlockDisabled ==> Finished(ops, |old(ops.history)|)
    ensures r != RepairRequired(ClassifyInterruptedDisable)
    ensures old(ops.Serene() && !ops.disk.stage) && removeOk ==> r == AutoUnlockDisabled
  {
    var durableOk := removeOk;
    if !removeOk {
      durableOk := ops.RemovePassword();
    }
    var finished;
    finished := FinishDisabledAfterPasswordRemoval(ops);
    if !finished { return RepairRequired(PublishDisabledSetting); }
    if !durableOk { return RepairRequired(ConfirmDurableWalletPasswordRemoval); }
    r := AutoUnlockDisabled;
  }
}
