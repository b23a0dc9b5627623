/**
 The resume planner (internal/installer/engine.go) and what its passes can leave in the
 ledger. A pass plans every step once, executes the planned ones in order and records each
 that succeeds; it may stop anywhere.
 */
module InstallEngine {
  import opened Basics
  import opened InstallLedger

  datatype Kind = Mutation | Gate
  datatype Phase = Bake | FirstBoot
  datatype Step = Step(key: StepKey, kind: Kind, group: Option<string>, phase: Phase)

  // The kind, group and phase buildInstallSteps gives each base step.
  function KindOf(k: StepKey): Kind {
    if k == TorGate || k == LndTlsSan then Gate else Mutation
  }

  function GroupOf(k: StepKey): Option<string> {
    match k
    case BtcDownload | BtcVerify | BtcInstall => Some("btc")
    case LndDownload | LndVerify | LndInstall => Some("lnd")
    case _ => None
  }

  function PhaseOf(k: StepKey): Phase {
    match k
    case IdentityAccess | SshHarden | JournalAccess | HelperEnable | StateStage => FirstBoot
    case _ => Bake
  }

  const BASE_STEPS: seq<Step> :=
    seq(|BASE_KEYS|, i requires 0 <= i < |BASE_KEYS| =>
      Step(BASE_KEYS[i], KindOf(BASE_KEYS[i]), GroupOf(BASE_KEYS[i]), PhaseOf(BASE_KEYS[i])))

  function Keys(steps: seq<Step>): (keys: seq<StepKey>)
    ensures |keys| == |steps| && forall i | 0 <= i < |steps| :: keys[i] == steps[i].key
  {
    seq(|steps|, i requires 0 <= i < |steps| => steps[i].key)
  }

  ghost predicate Distinct(steps: seq<Step>) {
    forall i, j | 0 <= i < j < |steps| :: steps[i].key != steps[j].key
  }

  // The members of a resume-atomic group all belong to one phase.
  ghost predicate GroupsInOnePhase(steps: seq<Step>) {
    forall i, j | 0 <= i < j < |steps| && steps[i].group.Some? && steps[i].group == steps[j].group ::
      steps[i].phase == steps[j].phase
  }

  /* ---- The plan ---- */

  // t is the last member of the group g.
  ghost predicate IsTerminal(steps: seq<Step>, g: string, t: nat) {
    t < |steps| && steps[t].group == Some(g) && forall j | t < j < |steps| :: steps[j].group != Some(g)
  }

  // Whether a pass that starts from `done` executes step i.
  ghost predicate Planned(steps: seq<Step>, done: set<StepKey>, i: nat)
    requires i < |steps|
  {
    if steps[i].kind == Gate then true
    else if steps[i].group.Some? then
      exists t: nat :: IsTerminal(steps, steps[i].group.value, t) && steps[t].key !in done
    else steps[i].key !in done
  }

  method PlanRun(steps: seq<Step>, done: set<StepKey>) returns (plan: seq<bool>)
    ensures |plan| == |steps| && forall i | 0 <= i < |steps| :: plan[i] == Planned(steps, done, i)
  {
    var terminal: map<string, nat> := map[];
    for i := 0 to |steps|
      invariant forall g | g in terminal :: terminal[g] < i && IsTerminal(steps[..i], g, terminal[g])
      invariant forall j | 0 <= j < i && steps[j].group.Some? :: steps[j].group.value in terminal
    {
      if steps[i].group.Some? {
        terminal := terminal[steps[i].group.value := i];
      }
    }
    assert steps[..|steps|] == steps;
    plan := [];
    for i := 0 to |steps|
      invariant |plan| == i && forall j | 0 <= j < i :: plan[j] == Planned(steps, done, j)
    {
      var s := steps[i];
      var run;
      if s.kind == Gate {
        run := true;
      } else if s.group.Some? {
        var t := terminal[s.group.value];
        run := steps[t].key !in done;
        assert IsTerminal(steps, s.group.value, t);
        assert forall u: nat | IsTerminal(steps, s.group.value, u) :: u == t;
      } else {
        run := s.key !in done;
      }
      plan := plan + [run];
    }
  }

  /* ---- Pass safety: what one pass executes, in order ---- */

  // The steps below n that a pass is to execute.
  ghost function PlannedBelow(steps: seq<Step>, done: set<StepKey>, n: nat): set<nat>
    requires n <= |steps|
  {
    set i: nat | i < n && Planned(steps, done, i)
  }

  // One execution of a step's function, and whether it succeeded.
  datatype Execution = Execution(key: StepKey, ok: bool)

  ghost predicate SucceededBefore(trace: seq<Execution>, k: nat, key: StepKey)
    requires k <= |trace|
  {
    Execution(key, true) in trace[..k]
  }

  // When execution k took place, every earlier gate had been executed and had succeeded, and
  // so had every earlier member of the group of a step that is no gate.
  ghost predicate SafeAt(steps: seq<Step>, trace: seq<Execution>, k: nat)
    requires k < |trace|
  {
    forall i, j | 0 <= j < i < |steps| && trace[k].key == steps[i].key && Precedes(steps, j, i) ::
      SucceededBefore(trace, k, steps[j].key)
  }

  predicate Precedes(steps: seq<Step>, j: nat, i: nat)
    requires j < i < |steps|
  {
    steps[j].kind == Gate || (steps[i].kind != Gate && steps[i].group.Some? && steps[j].group == steps[i].group)
  }

  ghost predicate SafeTrace(steps: seq<Step>, trace: seq<Execution>) {
    forall k | 0 <= k < |trace| :: SafeAt(steps, trace, k)
  }

  // A pass that has got to step n has executed all it was to execute, successfully.
  ghost predicate RanThrough(steps: seq<Step>, done: set<StepKey>, n: nat, trace: seq<Execution>)
    requires n <= |steps|
  {
    forall j | j in PlannedBelow(steps, done, n) :: Execution(steps[j].key, true) in trace
  }

  // A group member is planned exactly if the others are, so those before it come first.
  lemma EarlierMembersPlanned(steps: seq<Step>, done: set<StepKey>, i: nat, j: nat)
    requires j < i < |steps| && Planned(steps, done, i) && steps[i].kind != Gate
    requires steps[i].group.Some? && steps[j].group == steps[i].group
    ensures Planned(steps, done, j)
  {
    if steps[j].kind != Gate {
      var t: nat :| IsTerminal(steps, steps[i].group.value, t) && steps[t].key !in done;
      assert IsTerminal(steps, steps[j].group.value, t);
    }
  }

  // Executing the next planned step, whether it succeeds or not, keeps the trace safe.
  lemma PassSafety(steps: seq<Step>, done: set<StepKey>, i: nat, trace: seq<Execution>, ok: bool)
    requires Distinct(steps) && i < |steps| && Planned(steps, done, i)
    requires SafeTrace(steps, trace) && RanThrough(steps, done, i, trace)
    ensures SafeTrace(steps, trace + [Execution(steps[i].key, ok)])
    ensures ok ==> RanThrough(steps, done, i + 1, trace + [Execution(steps[i].key, ok)])
  {
    var next := trace + [Execution(steps[i].key, ok)];
    forall k | 0 <= k < |next| ensures SafeAt(steps, next, k) {
      if k < |trace| {
        assert SafeAt(steps, trace, k) && next[..k] == trace[..k];
      } else {
        assert next[..k] == trace;
        forall m, j | 0 <= j < m < |steps| && next[k].key == steps[m].key && Precedes(steps, j, m)
          ensures SucceededBefore(next, k, steps[j].key)
        {
          assert m == i;
          if steps[j].kind != Gate {
            EarlierMembersPlanned(steps, done, i, j);
          }
          assert j in PlannedBelow(steps, done, i);
        }
      }
    }
    assert forall e | e in trace :: e in next;
    assert next[|trace|] == Execution(steps[i].key, ok);
  }

  /* ---- The bake slice ---- */

  // FilterPhase(steps, PhaseBake).
  function BakeSlice(steps: seq<Step>): (r: seq<Step>)
    ensures |r| <= |steps|
  {
    if steps == [] then []
    else
      var r := BakeSlice(steps[..|steps| - 1]);
      var s := steps[|steps| - 1];
      if s.phase == Bake then r + [s] else r
  }

  method FilterBake(steps: seq<Step>) returns (out: seq<Step>)
    ensures out == BakeSlice(steps)
  {
    out := [];
    for i := 0 to |steps|
      invariant out == BakeSlice(steps[..i])
    {
      assert steps[..i + 1][..i] == steps[..i];
      if steps[i].phase == Bake {
        out := out + [steps[i]];
      }
    }
    assert steps[..|steps|] == steps;
  }

  // Where step i of the full list stands in the bake slice.
  function BakeIndex(steps: seq<Step>, i: nat): nat
    requires i <= |steps|
  {
    |BakeSlice(steps[..i])|
  }

  lemma {:induction false} BakeSliceGrows(steps: seq<Step>, i: nat, j: nat)
    requires i <= j <= |steps|
    ensures BakeSlice(steps[..i]) <= BakeSlice(steps[..j])
    decreases j
  {
    if i < j {
      BakeSliceGrows(steps, i, j - 1);
      assert steps[..j][..j - 1] == steps[..j - 1];
    }
  }

  // Bake steps keep their order: each stands at its own index of the slice.
  lemma BakePosition(steps: seq<Step>, i: nat)
    requires i < |steps| && steps[i].phase == Bake
    ensures BakeIndex(steps, i) < |BakeSlice(steps)|
    ensures BakeSlice(steps)[BakeIndex(steps, i)] == steps[i]
  {
    assert steps[..i + 1][..i] == steps[..i];
    BakeSliceGrows(steps, i + 1, |steps|);
    assert steps[..|steps|] == steps;
  }

  lemma BakeOrder(steps: seq<Step>, i: nat, j: nat)
    requires i < j <= |steps| && steps[i].phase == Bake
    ensures BakeIndex(steps, i) < BakeIndex(steps, j)
  {
    assert steps[..i + 1][..i] == steps[..i];
    BakeSliceGrows(steps, i + 1, j);
  }

  // Every step of the slice comes from some step of the full list, in order.
  lemma {:induction false} FullPosition(steps: seq<Step>, b: nat) returns (i: nat)
    requires b < |BakeSlice(steps)|
    ensures i < |steps| && steps[i] == BakeSlice(steps)[b] && steps[i].phase == Bake && BakeIndex(steps, i) == b
    decreases |steps|
  {
    var n := |steps| - 1;
    if b < |BakeSlice(steps[..n])| {
      i := FullPosition(steps[..n], b);
      assert steps[..n][..i] == steps[..i];
    } else {
      i := n;
    }
  }

  // The recorded bake list is exactly the phase-filtered full list.
  lemma BakeKeysAreTheSlice()
    ensures Keys(BASE_STEPS) == BASE_KEYS
    ensures Keys(BakeSlice(BASE_STEPS)) == BAKE_KEYS
  {
    forall n | 0 <= n < |BASE_STEPS| ensures CountsBake(BASE_STEPS, BAKE_KEYS, n) {
      BakeAt(n);
    }
    SliceByCount(BASE_STEPS, BAKE_KEYS, |BASE_STEPS|);
    assert BASE_STEPS[..|BASE_STEPS|] == BASE_STEPS;
  }

  // The step that applies the admin password: recorded once, on the deployed box.
  const IDENTITY_STEP := Step(IdentityAccess, Mutation, None, FirstBoot)

  // What the planner, the exactness result and the password delivery rely on.
  ghost predicate Profile(steps: seq<Step>) {
    Distinct(steps) && GroupsInOnePhase(steps) && IDENTITY_STEP in steps
  }

  // The base list of buildInstallSteps meets it.
  lemma BaseStepsAreAProfile()
    ensures Profile(BASE_STEPS)
  {
    assert BASE_STEPS[5] == IDENTITY_STEP;
    forall i, j | 0 <= i < j < |BASE_STEPS| ensures BASE_STEPS[i].key != BASE_STEPS[j].key {
      BaseKeyRank(i);
      BaseKeyRank(j);
    }
    forall i | 0 <= i < |BASE_STEPS| && BASE_STEPS[i].group.Some? ensures BASE_STEPS[i].phase == Bake {
      GroupedKeysAreBaked(BASE_STEPS[i].key);
    }
  }

  lemma GroupedKeysAreBaked(k: StepKey)
    ensures GroupOf(k).Some? ==> PhaseOf(k) == Bake
  {
  }

  lemma BaseKeyRank(i: nat)
    requires i < |BASE_KEYS|
    ensures Rank(BASE_KEYS[i]) == i
  {
  }

  // `bake` continues with step n exactly if step n is a bake step.
  predicate CountsBake(steps: seq<Step>, bake: seq<StepKey>, n: nat)
    requires n < |steps|
  {
    if steps[n].phase == Bake then
      BakeCount(n) < |bake| && bake[BakeCount(n)] == steps[n].key && BakeCount(n + 1) == BakeCount(n) + 1
    else
      BakeCount(n + 1) == BakeCount(n)
  }

  lemma {:induction false} SliceByCount(steps: seq<Step>, bake: seq<StepKey>, n: nat)
    requires n <= |steps| && forall m | 0 <= m < |steps| :: CountsBake(steps, bake, m)
    ensures BakeCount(n) <= |bake| && Keys(BakeSlice(steps[..n])) == bake[..BakeCount(n)]
  {
    if n > 0 {
      SliceByCount(steps, bake, n - 1);
      assert steps[..n][..n - 1] == steps[..n - 1];
      assert CountsBake(steps, bake, n - 1);
    }
  }

  lemma BakeAt(n: nat)
    requires n < |BASE_KEYS|
    ensures PhaseOf(BASE_KEYS[n]) == Bake ==>
      BakeCount(n) < |BAKE_KEYS| && BAKE_KEYS[BakeCount(n)] == BASE_KEYS[n] && BakeCount(n + 1) == BakeCount(n) + 1
    ensures PhaseOf(BASE_KEYS[n]) == FirstBoot ==> BakeCount(n + 1) == BakeCount(n)
  {
  }

  // The place of a key in the full list.
  function Rank(k: StepKey): nat {
    match k
    case BinaryInstall => 0 case AptBase => 1 case Firewall => 2 case BaseUpgrade => 3 case HostPrep => 4
    case IdentityAccess => 5 case ServiceIdentities => 6 case Ipv6Disable => 7 case TorConfigure => 8
    case TorGate => 9 case AptTorProxy => 10 case BtcDownload => 11 case BtcVerify => 12 case BtcInstall => 13
    case BtcStart => 14 case Security => 15 case LndDownload => 16 case LndVerify => 17 case LndInstall => 18
    case TorLnd => 19 case LndConfigure => 20 case LndStart => 21 case LndTlsSan => 22 case LndCertWatch => 23
    case SshHarden => 24 case JournalAccess => 25 case HelperEnable => 26 case StateStage => 27
    case ShellEnv => 28 case UnknownKey(_) => 29
  }

  function BakeCount(n: nat): nat {
    if n <= 5 then n else if n <= 24 then n - 1 else if n <= 28 then 23 else 24
  }

  /* ---- What passes can record ---- */

  // One pass over the full list or its bake slice that recorded its first `stop` steps.
  datatype Pass = Pass(bakeOnly: bool, stop: nat)

  function StepsOf(full: seq<Step>, bakeOnly: bool): seq<Step> {
    if bakeOnly then BakeSlice(full) else full
  }

  // The durable step set after a pass that planned from `done` and got through n steps.
  ghost function Recorded(steps: seq<Step>, done: set<StepKey>, n: nat): set<StepKey>
    requires n <= |steps|
  {
    done + set i: nat | i in PlannedBelow(steps, done, n) :: steps[i].key
  }

  ghost predicate Possible(full: seq<Step>, passes: seq<Pass>) {
    forall p | p in passes :: p.stop <= |StepsOf(full, p.bakeOnly)|
  }

  ghost function After(full: seq<Step>, passes: seq<Pass>): set<StepKey>
    requires Possible(full, passes)
  {
    if passes == [] then {}
    else
      var p := passes[|passes| - 1];
      Recorded(StepsOf(full, p.bakeOnly), After(full, passes[..|passes| - 1]), p.stop)
  }

  ghost predicate Accepted(full: seq<Step>, done: set<StepKey>) {
    Progress(Keys(full), Keys(BakeSlice(full)), done)
  }

  // Where the bake slice holds step t, it has already held every earlier bake step.
  lemma BakeReaches(full: seq<Step>, k: nat, i: nat, t: nat)
    requires Distinct(full) && k < |BakeSlice(full)| && i <= t < |full|
    requires full[i].phase == Bake && full[t].key == BakeSlice(full)[k].key
    ensures BakeIndex(full, i) <= k && BakeSlice(full)[BakeIndex(full, i)] == full[i]
  {
    var t' := FullPosition(full, k);
    assert t' == t;
    BakePosition(full, i);
    if i < t {
      BakeOrder(full, i, t);
    }
  }

  lemma FullPrefixCloses(full: seq<Step>, f: nat, i: nat, t: nat)
    requires Distinct(full) && f <= |full| && i <= t < |full|
    requires full[t].key in Prefix(Keys(full), f)
    ensures full[i].key in Prefix(Keys(full), f)
  {
    var keys := Keys(full);
    var k: nat :| k < f && keys[k] == full[t].key;
    assert full[k].key == full[t].key;
    assert k == t;
    assert keys[i] in Prefix(keys, f);
  }

  lemma BakePrefixCloses(full: seq<Step>, b: nat, i: nat, t: nat)
    requires Distinct(full) && b <= |BakeSlice(full)| && i <= t < |full| && full[i].phase == Bake
    requires full[t].key in Prefix(Keys(BakeSlice(full)), b)
    ensures full[i].key in Prefix(Keys(BakeSlice(full)), b)
  {
    var keys := Keys(BakeSlice(full));
    var k: nat :| k < b && keys[k] == full[t].key;
    BakeReaches(full, k, i, t);
    assert keys[BakeIndex(full, i)] in Prefix(keys, b);
  }

  lemma BakePrefixIsBake(full: seq<Step>, b: nat, t: nat)
    requires Distinct(full) && b <= |BakeSlice(full)| && t < |full|
    requires full[t].key in Prefix(Keys(BakeSlice(full)), b)
    ensures full[t].phase == Bake
  {
    var keys := Keys(BakeSlice(full));
    var k: nat :| k < b && keys[k] == full[t].key;
    var t' := FullPosition(full, k);
    assert t' == t;
  }

  // A terminal recorded by earlier passes means the whole group was.
  lemma TerminalCarriesGroup(full: seq<Step>, done: set<StepKey>, i: nat, t: nat)
    requires GroupsInOnePhase(full) && Distinct(full) && Accepted(full, done)
    requires i <= t < |full| && full[i].group.Some? && full[i].group == full[t].group && full[t].key in done
    ensures full[i].key in done
  {
    var f, b :| 0 <= f <= |full| && 0 <= b <= |BakeSlice(full)| &&
                done == Prefix(Keys(full), f) + Prefix(Keys(BakeSlice(full)), b);
    if full[t].key in Prefix(Keys(full), f) {
      FullPrefixCloses(full, f, i, t);
    } else {
      BakePrefixIsBake(full, b, t);
      assert full[i].phase == Bake;
      BakePrefixCloses(full, b, i, t);
    }
  }

  lemma {:induction false} LastOfGroup(steps: seq<Step>, i: nat) returns (t: nat)
    requires i < |steps| && steps[i].group.Some?
    ensures i <= t && IsTerminal(steps, steps[i].group.value, t)
    decreases |steps| - i
  {
    if j :| i < j < |steps| && steps[j].group == steps[i].group {
      t := LastOfGroup(steps, j);
    } else {
      t := i;
    }
  }

  // A step that a pass skips is recorded already, be it grouped or not.
  lemma SkippedIsRecorded(full: seq<Step>, done: set<StepKey>, bakeOnly: bool, i: nat)
    requires GroupsInOnePhase(full) && Distinct(full) && Accepted(full, done)
    requires i < |StepsOf(full, bakeOnly)| && !Planned(StepsOf(full, bakeOnly), done, i)
    ensures StepsOf(full, bakeOnly)[i].key in done
  {
    var steps := StepsOf(full, bakeOnly);
    if steps[i].group.Some? {
      var t := LastOfGroup(steps, i);
      assert IsTerminal(steps, steps[i].group.value, t);
      if bakeOnly {
        var i' := FullPosition(full, i);
        var t' := FullPosition(full, t);
        if t' < i' {
          BakeOrder(full, t', i');
        }
        TerminalCarriesGroup(full, done, i', t');
      } else {
        TerminalCarriesGroup(full, done, i, t);
      }
    }
  }

  // Resume-atomic groups: a pass executes all non-gate members of a group or skips them all,
  // and it skips them only if every one is recorded.
  lemma GroupsAreAtomic(full: seq<Step>, done: set<StepKey>, bakeOnly: bool, i: nat, j: nat)
    requires GroupsInOnePhase(full) && Distinct(full) && Accepted(full, done)
    requires i < |StepsOf(full, bakeOnly)| && j < |StepsOf(full, bakeOnly)|
    requires var steps := StepsOf(full, bakeOnly);
             steps[i].group.Some? && steps[i].group == steps[j].group && steps[i].kind != Gate && steps[j].kind != Gate
    ensures var steps := StepsOf(full, bakeOnly);
            && (Planned(steps, done, i) <==> Planned(steps, done, j))
            && (!Planned(steps, done, i) ==> steps[i].key in done && steps[j].key in done)
  {
    if !Planned(StepsOf(full, bakeOnly), done, i) {
      SkippedIsRecorded(full, done, bakeOnly, i);
      SkippedIsRecorded(full, done, bakeOnly, j);
    }
  }

  // From an accepted set, a pass records exactly the prefix it got through.
  lemma {:induction false} PassRecordsPrefix(full: seq<Step>, done: set<StepKey>, bakeOnly: bool, n: nat)
    requires GroupsInOnePhase(full) && Distinct(full) && Accepted(full, done)
    requires n <= |StepsOf(full, bakeOnly)|
    ensures Recorded(StepsOf(full, bakeOnly), done, n) == done + Prefix(Keys(StepsOf(full, bakeOnly)), n)
  {
    var steps := StepsOf(full, bakeOnly);
    forall i | 0 <= i < n ensures steps[i].key in Recorded(steps, done, n) {
      if Planned(steps, done, i) {
        assert i in PlannedBelow(steps, done, n);
      } else {
        SkippedIsRecorded(full, done, bakeOnly, i);
      }
    }
    forall k | k in Recorded(steps, done, n) ensures k in done + Prefix(Keys(steps), n) {
      if k !in done {
        var i: nat :| i in PlannedBelow(steps, done, n) && steps[i].key == k;
        assert Keys(steps)[i] == k;
      }
    }
    forall k | k in Prefix(Keys(steps), n) ensures k in Recorded(steps, done, n) {
      var i :| 0 <= i < n && Keys(steps)[i] == k;
    }
  }

  // Soundness of the validator: nothing a sequence of passes records is refused.
  lemma {:induction false} PassesAreAccepted(full: seq<Step>, passes: seq<Pass>)
    requires GroupsInOnePhase(full) && Distinct(full) && Possible(full, passes)
    ensures Accepted(full, After(full, passes))
  {
    var bake := BakeSlice(full);
    if passes == [] {
      assert {} == Prefix(Keys(full), 0) + Prefix(Keys(bake), 0);
    } else {
      var p, earlier := passes[|passes| - 1], passes[..|passes| - 1];
      PassesAreAccepted(full, earlier);
      PassRecordsPrefix(full, After(full, earlier), p.bakeOnly, p.stop);
      PassKeepsProgress(Keys(full), Keys(bake), After(full, earlier), p.bakeOnly, p.stop);
    }
  }

  lemma PassKeepsProgress(full: seq<StepKey>, bake: seq<StepKey>, done: set<StepKey>, bakeOnly: bool, n: nat)
    requires Progress(full, bake, done) && n <= if bakeOnly then |bake| else |full|
    ensures Progress(full, bake, done + Prefix(if bakeOnly then bake else full, n))
  {
    var f, b :| 0 <= f <= |full| && 0 <= b <= |bake| && done == Prefix(full, f) + Prefix(bake, b);
    if bakeOnly {
      PrefixMax(bake, b, n);
      assert done + Prefix(bake, n) == Prefix(full, f) + (Prefix(bake, b) + Prefix(bake, n));
    } else {
      PrefixMax(full, f, n);
      assert done + Prefix(full, n) == (Prefix(full, f) + Prefix(full, n)) + Prefix(bake, b);
    }
  }

  // Completeness: every accepted set is one bake pass followed by one full pass.
  lemma AcceptedIsRecorded(full: seq<Step>, f: nat, b: nat) returns (passes: seq<Pass>)
    requires GroupsInOnePhase(full) && Distinct(full) && f <= |full| && b <= |BakeSlice(full)|
    ensures Possible(full, passes) && After(full, passes) == Prefix(Keys(full), f) + Prefix(Keys(BakeSlice(full)), b)
  {
    var baked := [Pass(true, b)];
    passes := baked + [Pass(false, f)];
    assert baked[..0] == [] && passes[..1] == baked;
    PassesAreAccepted(full, []);
    PassRecordsPrefix(full, {}, true, b);
    assert After(full, baked) == Prefix(Keys(BakeSlice(full)), b);
    PassesAreAccepted(full, baked);
    PassRecordsPrefix(full, After(full, baked), false, f);
  }

  // Exactness: the validator accepts a step set if and only if some sequence of full and
  // bake passes, each stopped anywhere, records exactly it.
  lemma ValidatorIsExact(full: seq<Step>, done: set<StepKey>)
    requires GroupsInOnePhase(full) && Distinct(full)
    ensures Accepted(full, done) <==> exists passes :: Possible(full, passes) && After(full, passes) == done
  {
    if Accepted(full, done) {
      var f, b :| 0 <= f <= |full| && 0 <= b <= |BakeSlice(full)| &&
                  done == Prefix(Keys(full), f) + Prefix(Keys(BakeSlice(full)), b);
      var passes := AcceptedIsRecorded(full, f, b);
    }
    forall passes | Possible(full, passes) && After(full, passes) == done ensures Accepted(full, done) {
      PassesAreAccepted(full, passes);
    }
  }

  /* ---- Step by step through one pass ---- */

  lemma RecordedNext(steps: seq<Step>, done: set<StepKey>, i: nat)
    requires i < |steps|
    ensures Recorded(steps, done, i + 1) ==
            Recorded(steps, done, i) + if Planned(steps, done, i) then {steps[i].key} else {}
  {
    var before, after := PlannedBelow(steps, done, i), PlannedBelow(steps, done, i + 1);
    assert after == before + if Planned(steps, done, i) then {i} else {};
  }

  // The validator takes the step set at every point of a pass.
  lemma PassIsAcceptedThroughout(full: seq<Step>, done: set<StepKey>, bakeOnly: bool, i: nat)
    requires GroupsInOnePhase(full) && Distinct(full) && Accepted(full, done)
    requires i <= |StepsOf(full, bakeOnly)|
    ensures Accepted(full, Recorded(StepsOf(full, bakeOnly), done, i))
  {
    PassRecordsPrefix(full, done, bakeOnly, i);
    PassKeepsProgress(Keys(full), Keys(BakeSlice(full)), done, bakeOnly, i);
  }

  // The whole ledger that a pass saves after any number of steps is valid, if the one it
  // started from is and has a cache size.
  lemma SavedLedgersValid(full: seq<Step>, d: Doc, saved: map<StepKey, Entry>, bakeOnly: bool, n: nat)
    requires Profile(full) && ValidDoc(d, Keys(full), Keys(BakeSlice(full)))
    requires d.status == InProgress && d.dbCache.Some? && n <= |StepsOf(full, bakeOnly)|
    requires saved.Keys == Recorded(StepsOf(full, bakeOnly), d.steps.value.Keys, n)
    requires forall k | k in saved :: saved[k].timeValid && !Blank(saved[k].version)
    ensures ValidDoc(d.(steps := Some(saved)), Keys(full), Keys(BakeSlice(full)))
  {
    var done, steps := d.steps.value.Keys, StepsOf(full, bakeOnly);
    PassIsAcceptedThroughout(full, done, bakeOnly, n);
    forall k | k in saved ensures k in Prefix(Keys(full), |full|) {
      if k !in done {
        var i: nat :| i in PlannedBelow(steps, done, n) && steps[i].key == k;
        SliceWithinFull(full, bakeOnly, i);
      }
    }
  }

  // identity.access runs in full passes only, and only while it is unrecorded.
  lemma IdentityRunsOnce(full: seq<Step>, done: set<StepKey>, bakeOnly: bool, i: nat)
    requires Profile(full) && i < |StepsOf(full, bakeOnly)|
    requires StepsOf(full, bakeOnly)[i].key == IdentityAccess && Planned(StepsOf(full, bakeOnly), done, i)
    ensures !bakeOnly && IdentityAccess !in Recorded(full, done, i) && IdentityAccess !in done
  {
    var id :| 0 <= id < |full| && full[id] == IDENTITY_STEP;
    if bakeOnly {
      var f := FullPosition(full, i);
    }
  }

  lemma IdentityIsAStep(full: seq<Step>)
    requires Profile(full)
    ensures IdentityAccess in Prefix(Keys(full), |full|)
  {
    var id :| 0 <= id < |full| && full[id] == IDENTITY_STEP;
    assert Keys(full)[id] == IdentityAccess;
  }

  // A full pass that gets through leaves every step recorded.
  lemma FullPassRecordsAll(full: seq<Step>, done: set<StepKey>)
    requires Profile(full) && Accepted(full, done) && done <= Prefix(Keys(full), |full|)
    ensures Recorded(full, done, |full|) == Prefix(Keys(full), |full|)
  {
    PassRecordsPrefix(full, done, false, |full|);
  }

  // Whatever a pass records are keys of the full list.
  lemma SliceWithinFull(full: seq<Step>, bakeOnly: bool, i: nat)
    requires i < |StepsOf(full, bakeOnly)|
    ensures StepsOf(full, bakeOnly)[i].key in Prefix(Keys(full), |full|)
  {
    if bakeOnly {
      var f := FullPosition(full, i);
      assert Keys(full)[f] in Prefix(Keys(full), |full|);
    } else {
      assert Keys(full)[i] in Prefix(Keys(full), |full|);
    }
  }

  // Both step lists of an installer have distinct keys.
  lemma SliceDistinct(full: seq<Step>, bakeOnly: bool)
    requires Distinct(full)
    ensures Distinct(StepsOf(full, bakeOnly))
  {
    if bakeOnly {
      var slice := BakeSlice(full);
      forall i, j | 0 <= i < j < |slice| ensures slice[i].key != slice[j].key {
        var m := FullPosition(full, i);
        var n := FullPosition(full, j);
        assert m != n;
      }
    }
  }

  // What step i of a pass does to its trace.
  lemma TraceStep(full: seq<Step>, done: set<StepKey>, bakeOnly: bool, i: nat,
                  before: seq<Execution>, after: seq<Execution>, ok: bool)
    requires Distinct(full) && i < |StepsOf(full, bakeOnly)|
    requires var steps := StepsOf(full, bakeOnly);
             && SafeTrace(steps, before) && RanThrough(steps, done, i, before)
             && after == if Planned(steps, done, i) then before + [Execution(steps[i].key, ok)] else before
    ensures var steps := StepsOf(full, bakeOnly);
            && SafeTrace(steps, after)
            && (ok || !Planned(steps, done, i) ==> RanThrough(steps, done, i + 1, after))
  {
    if Planned(StepsOf(full, bakeOnly), done, i) {
      SliceDistinct(full, bakeOnly);
      PassSafety(StepsOf(full, bakeOnly), done, i, before, ok);
    }
  }
}
