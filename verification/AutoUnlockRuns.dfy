/**
 Whole runs of the auto-unlock transition: any number of attempts, each failing or being
 killed anywhere, with any candidate passwords, followed by one calm attempt; and what the
 record of such runs proves.
 */
module AutoUnlockRuns {
  import opened Basics
  import opened AutoUnlockWorld
  import opened AutoUnlock

  /* ---- What the record says ---- */

  // Instants b and i belong to one transition, which began at b.
  ghost predicate RunOf(h: seq<Instant>, b: nat, i: nat) {
    b <= i < |h| && h[b].what == Began && forall m | b < m <= i :: h[m].what != Began
  }

  ghost predicate NewerUnlocked(h: seq<Instant>, b: nat, p: nat)
    requires b < |h| && p < |h|
  {
    Sighting(h, p, UnlockArgv, RpcActive) && SightedInvocation(h, p) > h[b].began
  }

  // In the transition of instant i, before it, a self-unlocking LND newer than the one the
  // transition found was bracketed by two equal samples and then seen past its wallet.
  ghost predicate ProvedInRun(h: seq<Instant>, i: nat) {
    exists b, p | 0 <= b < p <= i && p < |h| :: RunOf(h, b, i) && NewerUnlocked(h, b, p)
  }

  ghost predicate ClearSince(h: seq<Instant>, p: nat, i: nat)
    requires p < |h|
  {
    ClearProof(h, p) && forall m | p < m <= i :: m < |h| && h[m].what != Started
  }

  // In the transition of instant i, before it and after the last start, LND was seen without
  // any process, or stably running with plain arguments.
  ghost predicate ClearedInRun(h: seq<Instant>, i: nat) {
    exists b, p | 0 <= b < p <= i && p < |h| :: RunOf(h, b, i) && ClearSince(h, p, i)
  }

  predicate Unrestrained(d: Disk) {
    d.unit == EnabledUnit && !d.drop
  }

  // Once a transition has the drop-in in place, it never leaves the enabled unit without it
  // unless a newer invocation has been proved in that transition.
  ghost predicate OneAttempt(h: seq<Instant>) {
    forall b: nat, d: nat, i: nat | RunOf(h, b, i) && b < d <= i && h[d].disk.drop && Unrestrained(h[i].disk) ::
      ProvedInRun(h, i)
  }

  // The flag is raised only over a complete enabled state, after such a proof.
  ghost predicate FlagAfterProof(h: seq<Instant>, truth: string) {
    forall i | 0 < i < |h| && h[i].disk.flag && !h[i - 1].disk.flag ::
      FullyEnabled(h[i].disk, truth) && ProvedInRun(h, i - 1)
  }

  // A password disappears or is replaced only under the plain unit, with evidence that LND
  // does not use it, and while in fact it does not.
  ghost predicate PasswordAfterEvidence(h: seq<Instant>) {
    forall i | 0 < i < |h| && h[i].disk.password != h[i - 1].disk.password ::
      && h[i - 1].disk.unit == PlainUnit && h[i].what == Wrote(false)
      && ClearedInRun(h, i - 1)
  }

  lemma {:induction false} RunStart(h: seq<Instant>, i: nat, truth: string) returns (b: nat)
    requires SafeHistory(h, truth) && i < |h|
    ensures RunOf(h, b, i) && h[i].began == h[b].began
  {
    assert SafeStep(h, i, truth);
    if h[i].what == Began {
      b := i;
    } else {
      b := RunStart(h, i - 1, truth);
    }
  }

  lemma {:induction false} ProofBehindMark(h: seq<Instant>, i: nat, truth: string)
    requires SafeHistory(h, truth) && i < |h| && h[i].proved
    ensures ProvedInRun(h, i)
  {
    assert SafeStep(h, i, truth);
    if h[i - 1].proved {
      ProofBehindMark(h, i - 1, truth);
      var b, p :| 0 <= b < p <= i - 1 && RunOf(h, b, i - 1) && NewerUnlocked(h, b, p);
      assert RunOf(h, b, i);
    } else {
      var b := RunStart(h, i, truth);
      assert NewerUnlocked(h, b, i);
    }
  }

  lemma {:induction false} EvidenceBehindMark(h: seq<Instant>, i: nat, truth: string)
    requires SafeHistory(h, truth) && i < |h| && h[i].clear
    ensures ClearedInRun(h, i)
  {
    assert SafeStep(h, i, truth);
    if h[i - 1].clear {
      EvidenceBehindMark(h, i - 1, truth);
      var b, p :| 0 <= b < p <= i - 1 && RunOf(h, b, i - 1) && ClearSince(h, p, i - 1);
      assert ClearSince(h, p, i);
      assert RunOf(h, b, i);
    } else {
      var b := RunStart(h, i, truth);
      assert ClearSince(h, i, i);
    }
  }

  // From an instant with the drop-in to a later unrestrained one there is a proof in between,
  // whatever was written.
  lemma {:induction false} ProofBeforeRelease(h: seq<Instant>, b: nat, d: nat, i: nat, truth: string)
    requires SafeHistory(h, truth) && RunOf(h, b, i) && b < d <= i
    requires h[d].disk.drop && Unrestrained(h[i].disk)
    ensures ProvedInRun(h, i)
    decreases i
  {
    assert SafeStep(h, i, truth);
    assert RunOf(h, b, i - 1);
    if Unrestrained(h[i - 1].disk) {
      ProofBeforeRelease(h, b, d, i - 1, truth);
    } else {
      assert h[i - 1].proved;
      ProofBehindMark(h, i - 1, truth);
    }
    var c, p :| 0 <= c < p <= i - 1 && RunOf(h, c, i - 1) && NewerUnlocked(h, c, p);
    assert RunOf(h, c, i);
  }

  // Every safe record has all three properties.
  lemma SafeRecord(h: seq<Instant>, truth: string)
    requires SafeHistory(h, truth)
    ensures OneAttempt(h) && FlagAfterProof(h, truth) && PasswordAfterEvidence(h)
  {
    forall b: nat, d: nat, i: nat | RunOf(h, b, i) && b < d <= i && h[d].disk.drop && Unrestrained(h[i].disk)
      ensures ProvedInRun(h, i)
    {
      ProofBeforeRelease(h, b, d, i, truth);
    }
    forall i | 0 < i < |h| && h[i].disk.flag && !h[i - 1].disk.flag
      ensures FullyEnabled(h[i].disk, truth) && ProvedInRun(h, i - 1)
    {
      assert SafeStep(h, i, truth);
      ProofBehindMark(h, i - 1, truth);
    }
    forall i | 0 < i < |h| && h[i].disk.password != h[i - 1].disk.password
      ensures h[i - 1].disk.unit == PlainUnit && h[i].what == Wrote(false) && ClearedInRun(h, i - 1)
    {
      assert SafeStep(h, i, truth);
      EvidenceBehindMark(h, i - 1, truth);
    }
  }

  // What a transition claims to have seen is on its record, at the instant it says.
  lemma {:induction false} SeenIsRecorded(h: seq<Instant>, i: nat, truth: string)
    requires SafeHistory(h, truth) && i < |h| && h[i].seen.Some?
    ensures h[i].seen.value.at <= i && OnRecord(h, h[i].seen.value)
  {
    assert SafeStep(h, i, truth);
    if h[i].seen == h[i - 1].seen {
      SeenIsRecorded(h, i - 1, truth);
    }
  }

  /* ---- Runs ---- */

  // One attempt of an operator who may choose either operation and any password.
  method AnyAttempt(ops: Node, enable: bool, password: string)
    requires ops.Valid() && ops.disk.unit != UnknownUnit
    modifies ops
    ensures ops.Valid() && ops.disk.unit != UnknownUnit && !ops.crashed && old(ops.history) <= ops.history
    ensures old(ops.unfit) ==> ops.unfit && ops.disk == old(ops.disk)
  {
    ops.calm := false;
    if enable {
      ghost var touched;
      var outcome;
      outcome, touched := EnableAutoUnlock(password, ops);
    } else {
      var outcome := DisableAutoUnlockTransition(ops);
    }
    var reboot: bool := *;
    ops.Recover(reboot);
  }

  // The operation that the configuration flag selects, with nothing failing.
  method CalmAttempt(ops: Node) returns (outcome: Outcome)
    requires ops.Valid() && ops.disk.unit != UnknownUnit && !ops.crashed && AcceptablePassword(ops.truth)
    modifies ops
    ensures ops.Valid() && old(ops.history) <= ops.history && ops.disk.unit != UnknownUnit && !ops.crashed
    ensures old(ops.unfit) ==> ops.unfit
    // it completes exactly if the drop-in directory held nothing but the drop-in
    ensures !old(ops.unfit) && old(ops.disk.flag) ==> outcome == AutoUnlockDisabled && FullyDisabled(ops.disk)
    ensures !old(ops.unfit) && !old(ops.disk.flag) ==>
      outcome == AutoUnlockEnabled && FullyEnabled(ops.disk, ops.truth)
    ensures old(ops.unfit) ==> outcome.RepairRequired? && ops.disk == old(ops.disk)
  {
    ops.calm := true;
    if ops.disk.flag {
      outcome := DisableAutoUnlockTransition(ops);
    } else {
      ghost var touched;
      outcome, touched := EnableAutoUnlock(ops.truth, ops);
    }
    ops.Recover(false);
  }

  // From a clean node and after any attempts at all, the operation that the configuration
  // flag selects completes as soon as nothing fails any more, exactly if none of the attempts
  // left the drop-in directory unfit; and the whole record is safe.
  method ConvergesAfterAnyAttempts(truth: string, startEnabled: bool, attempts: seq<(bool, string)>)
    returns (ops: Node, before: Disk, fit: bool, outcome: Outcome)
    requires AcceptablePassword(truth)
    ensures fresh(ops) && ops.Valid() && ops.truth == truth
    ensures outcome in {AutoUnlockDisabled, AutoUnlockEnabled} <==> fit
    ensures fit && before.flag ==> outcome == AutoUnlockDisabled && FullyDisabled(ops.disk)
    ensures fit && !before.flag ==> outcome == AutoUnlockEnabled && FullyEnabled(ops.disk, truth)
    ensures !fit ==> outcome.RepairRequired? && ops.disk == before
    ensures OneAttempt(ops.history) && FlagAfterProof(ops.history, truth) && PasswordAfterEvidence(ops.history)
    ensures forall i | 0 <= i < |ops.history| :: Durable(ops.history[i].disk, truth)
  {
    ops := new Node(truth, startEnabled);
    for i := 0 to |attempts|
      invariant fresh(ops) && ops.Valid() && ops.truth == truth
      invariant ops.disk.unit != UnknownUnit && !ops.crashed
    {
      AnyAttempt(ops, attempts[i].0, attempts[i].1);
    }
    before, fit := ops.disk, !ops.unfit;
    outcome := CalmAttempt(ops);
    SafeRecord(ops.history, truth);
    forall i | 0 <= i < |ops.history| ensures Durable(ops.history[i].disk, truth) {
      AlwaysDurable(ops.history, i, truth);
    }
  }

  // It does happen: an enable of a clean node is killed while it writes the drop-in, between
  // the temporary file and the rename. After any further attempts, calm or not, neither
  // operation ever completes again, although the node still is as it was.
  method LeftoverBlocksForGood(truth: string, attempts: seq<(bool, string)>) returns (ops: Node, outcome: Outcome)
    requires AcceptablePassword(truth)
    ensures fresh(ops) && ops.Valid() && FullyDisabled(ops.disk) && outcome.RepairRequired?
  {
    ops := new Node(truth, false);
    ops.calm := true;
    ops.BeginRun();
    var cfgOk, flag := ops.LoadConfig();
    var artifactsOk, artifacts := ops.Artifacts();
    var created := ops.CreateDropTemp();
    ops.Recover(false);
    for i := 0 to |attempts|
      invariant fresh(ops) && ops.Valid() && !ops.crashed && ops.unfit && ops.truth == truth && FullyDisabled(ops.disk)
    {
      AnyAttempt(ops, attempts[i].0, attempts[i].1);
    }
    outcome := CalmAttempt(ops);
  }
}
