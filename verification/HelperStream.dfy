/**
 The privileged helper's progress stream: the root side runs a streaming verb and reports each
 completed step (internal/helperd/verbs.go), the session reads the events
 (internal/helper/client.go), and a step list shows them (internal/tui/helper_steps.go).
 Whatever the connection does to the events, the client never shows a step as done that the
 root side did not complete.
 */
module HelperStream {
  import opened Basics

  datatype Event =
    | Step(index: int, err: string)
    | End(ok: bool, error: string, result: Payload)
    | Other                                  // an event kind this client does not know

  // The result of a terminator: absent, or decodable or not into what the caller wants.
  datatype Payload = NoPayload | Decodable | Undecodable

  // One response line, and how the stream ends when there are no more.
  datatype Line = Delivered(ev: Event) | Malformed
  datatype Closing = Eof | ReadError

  datatype Failure =
    | Unreachable                            // dial, read error, or end without terminator
    | BadResponse
    | StepFailed(text: string)
    | OperationFailed(text: string)
    | NotReported(index: int)
    | BadResult
    | NoSession

  /* ---- What waiting on a stream comes to ---- */

  // Waiting from the start of a stream for step i, or for the terminator if i is negative.
  function Verdict(lines: seq<Line>, closing: Closing, i: int): Option<Failure> {
    if lines == [] then Some(Unreachable) else
    match lines[0]
    case Malformed => Some(BadResponse)
    case Delivered(Step(j, err)) =>
      if err != "" then Some(StepFailed(err))
      else if i >= 0 && j == i then None
      else Verdict(lines[1..], closing, i)
    case Delivered(End(ok, error, _)) =>
      if !ok then Some(OperationFailed(error)) else if i >= 0 then Some(NotReported(i)) else None
    case Delivered(Other) => Verdict(lines[1..], closing, i)
  }

  // Lines that end no wait but those for the steps they report.
  predicate Harmless(line: Line) {
    line.Delivered? && (line.ev.Other? || (line.ev.Step? && line.ev.err == ""))
  }

  function Reported(lines: seq<Line>): set<int> {
    set l | l in lines && l.Delivered? && l.ev.Step? && l.ev.err == "" :: l.ev.index
  }

  // Reading past harmless lines changes only what they report.
  lemma {:induction false} ReadPast(lines: seq<Line>, n: nat, closing: Closing, i: int)
    requires n <= |lines| && forall l | l in lines[..n] :: Harmless(l)
    ensures Verdict(lines, closing, i) ==
            if i >= 0 && i in Reported(lines[..n]) then None else Verdict(lines[n..], closing, i)
  {
    if n == 0 {
      assert lines[0..] == lines;
    } else {
      var rest := lines[1..];
      assert lines[..n] == [lines[0]] + rest[..n - 1] && rest[n - 1..] == lines[n..];
      assert lines[0] in lines[..n] && forall l | l in rest[..n - 1] :: l in lines[..n];
      ReadPast(rest, n - 1, closing, i);
      ReportedCons(lines[0], rest[..n - 1]);
    }
  }

  lemma ReportedCons(line: Line, rest: seq<Line>)
    requires Harmless(line)
    ensures Reported([line] + rest) == Reported(rest) + if line.ev.Step? then {line.ev.index} else {}
  {
    var all := [line] + rest;
    assert all[0] == line && all[1..] == rest;
    forall i | i in Reported(rest) ensures i in Reported(all) {
      var l :| l in rest && l.Delivered? && l.ev.Step? && l.ev.err == "" && l.ev.index == i;
      assert l in all;
    }
    if line.ev.Step? {
      assert line in all;
    }
  }

  /* ---- The session ---- */

  class Session {
    const lines: seq<Line>
    const closing: Closing
    var at: nat                    // lines read so far
    var end: Option<Event>
    var stepOK: set<int>
    var err: Option<Failure>

    constructor (lines: seq<Line>, closing: Closing)
      ensures Valid() && err == None && this.lines == lines && this.closing == closing
    {
      this.lines, this.closing := lines, closing;
      at, end, stepOK, err := 0, None, {}, None;
    }

    // Without a sticky error, everything read but a terminator at the end was harmless.
    ghost predicate Valid()
      reads this
    {
      && at <= |lines| && stepOK == Reported(lines[..at])
      && (err == None ==>
            if end == None then forall l | l in lines[..at] :: Harmless(l)
            else at > 0 && end.value.End? && lines[at - 1] == Delivered(end.value) &&
                 forall l | l in lines[..at - 1] :: Harmless(l))
    }

    // What has been read decides the verdict, or leaves it to the rest.
    lemma KnownSoFar(i: int)
      requires Valid() && err == None
      ensures i >= 0 && i in stepOK ==> Verdict(lines, closing, i) == None
      ensures !(i >= 0 && i in stepOK) ==>
        Verdict(lines, closing, i) ==
        if end == None then Verdict(lines[at..], closing, i)
        else if !end.value.ok then Some(OperationFailed(end.value.error))
        else if i >= 0 then Some(NotReported(i)) else None
    {
      if end == None {
        ReadPast(lines, at, closing, i);
      } else {
        ReadPast(lines, at - 1, closing, i);
        assert lines[..at] == lines[..at - 1] + [lines[at - 1]];
        assert lines[at - 1..][0] == lines[at - 1];
      }
    }

    method ReadEvent() returns (line: Option<Line>)
      requires Valid() && end == None && err == None
      modifies this`at
      ensures line == if old(at) < |lines| then Some(lines[old(at)]) else None
      ensures at == if old(at) < |lines| then old(at) + 1 else old(at)
    {
      line := None;
      if at < |lines| {
        line := Some(lines[at]);
        at := at + 1;
      }
    }

    // endErr.
    method EndErr(untilStep: int) returns (r: Option<Failure>)
      requires Valid() && end.Some? && err == None
      modifies this`err
      ensures Valid() && err == r
      ensures r == if !end.value.ok then Some(OperationFailed(end.value.error))
                   else if untilStep >= 0 && untilStep !in stepOK then Some(NotReported(untilStep)) else None
    {
      if end.value.ok {
        if untilStep >= 0 && untilStep !in stepOK {
          err := Some(NotReported(untilStep));
        }
      } else {
        err := Some(OperationFailed(end.value.error));
      }
      r := err;
    }

    // advance: errors stick; without one, the answer is the verdict on the whole stream,
    // whatever was waited for before.
    method Advance(untilStep: int) returns (r: Option<Failure>)
      requires Valid()
      modifies this
      ensures Valid() && err == r
      ensures old(err) != None ==> r == old(err)
      ensures old(err) == None ==> r == Verdict(lines, closing, untilStep)
      ensures r == None && untilStep < 0 ==> end.Some?
    {
      if err != None {
        return err;
      }
      while true
        invariant Valid() && err == None
        decreases |lines| - at, end == None
      {
        KnownSoFar(untilStep);
        if untilStep >= 0 && untilStep in stepOK {
          return None;
        }
        if end != None {
          r := EndErr(untilStep);
          return;
        }
        var before := at;
        var line := ReadEvent();
        if line == None {
          err := Some(Unreachable);
          return err;
        }
        assert lines[before..][0] == lines[before] && lines[before..][1..] == lines[before + 1..];
        assert lines[..before + 1] == lines[..before] + [lines[before]];
        match line.value {
          case Malformed =>
            err := Some(BadResponse);
            return err;
          case Delivered(Step(index, text)) =>
            if text != "" {
              err := Some(StepFailed(text));
              return err;
            }
            stepOK := stepOK + {index};
          case Delivered(End(ok, error, result)) =>
            end := Some(line.value.ev);
            if untilStep < 0 {
              KnownSoFar(untilStep);
              r := EndErr(untilStep);
              return;
            }
          case Delivered(Other) =>
        }
      }
    }

    // WaitStep.
    method WaitStep(i: nat) returns (r: Option<Failure>)
      requires Valid()
      modifies this
      ensures Valid() && err == r
      ensures r == if old(err) != None then old(err) else Verdict(lines, closing, i)
    {
      r := Advance(i);
    }

    // Wait: drains the stream, then decodes the result if the caller wants one.
    method Wait(wanted: bool) returns (r: Option<Failure>)
      requires Valid()
      modifies this
      ensures Valid() && (old(err) != None ==> r == old(err) && err == r)
      ensures old(err) == None ==> r == WaitVerdict(lines, closing, wanted)
    {
      r := Advance(-1);
      if r == None {
        EndIsTerminator();
        if wanted && end.value.result == Undecodable {
          r := Some(BadResult);
        }
      }
    }

    lemma EndIsTerminator()
      requires Valid() && err == None && end.Some?
      ensures Terminator(lines) == end
    {
      TerminatorAfter(lines, at - 1);
      assert lines[at - 1..][0] == lines[at - 1];
    }
  }

  // The first terminator of a stream.
  function Terminator(lines: seq<Line>): Option<Event> {
    if lines == [] then None
    else if lines[0].Delivered? && lines[0].ev.End? then Some(lines[0].ev)
    else Terminator(lines[1..])
  }

  lemma {:induction false} TerminatorAfter(lines: seq<Line>, n: nat)
    requires n <= |lines| && forall l | l in lines[..n] :: Harmless(l)
    ensures Terminator(lines) == Terminator(lines[n..])
  {
    if n == 0 {
      assert lines[0..] == lines;
    } else {
      var rest := lines[1..];
      assert lines[0] in lines[..n] && forall l | l in rest[..n - 1] :: l in lines[..n] by {
        assert lines[..n] == [lines[0]] + rest[..n - 1];
      }
      assert rest[n - 1..] == lines[n..];
      TerminatorAfter(rest, n - 1);
    }
  }

  // What Wait makes of a stream.
  function WaitVerdict(lines: seq<Line>, closing: Closing, wanted: bool): Option<Failure> {
    var v := Verdict(lines, closing, -1);
    var end := Terminator(lines);
    if v == None && wanted && end.Some? && end.value.End? && end.value.result == Undecodable then Some(BadResult) else v
  }

  /* ---- The root side ---- */

  function Reports(k: nat): seq<Event> {
    seq(k, i => Step(i, ""))
  }

  class Host {
    var completed: nat         // effects that succeeded, in order
    var sent: seq<Event>
    var mode: string           // the authoritative P2P mode
    const calm: bool           // nothing fails

    constructor (mode: string, calm: bool)
      ensures completed == 0 && sent == [] && this.mode == mode && this.calm == calm
    {
      completed, sent, this.mode, this.calm := 0, [], mode, calm;
    }

    // One installer step: it succeeds or not.
    method Effect() returns (ok: bool)
      modifies this`completed
      ensures completed == old(completed) + if ok then 1 else 0
      ensures calm ==> ok
    {
      ok := *;
      ok := ok || calm;
      if ok {
        completed := completed + 1;
      }
    }

    method EmitStep(i: nat)
      modifies this`sent
      ensures sent == old(sent) + [Step(i, "")]
    {
      sent := sent + [Step(i, "")];
    }

    // runSteps.
    method RunSteps(n: nat) returns (err: Option<string>)
      requires sent == [] && completed == 0
      modifies this`completed, this`sent
      ensures sent == Reports(completed) && completed <= n
      ensures err == None <==> completed == n
      ensures calm ==> err == None
    {
      for i := 0 to n
        invariant completed == i && sent == Reports(i)
      {
        var ok := Effect();
        if !ok {
          var text: string := *;
          return Some(text);
        }
        EmitStep(i);
      }
      err := None;
    }

    // saveSystemConfig of a changed P2P mode: an error may hide that it was written.
    method SaveMode(m: string) returns (ok: bool)
      modifies this`completed, this`mode
      ensures ok ==> mode == m
      ensures mode in {old(mode), m}
      ensures completed == old(completed) + if ok then 1 else 0
      ensures calm ==> ok
    {
      var acts: bool := *;
      ok := *;
      acts, ok := acts || calm, (ok && acts) || calm;
      if acts {
        mode := m;
      }
      if ok {
        completed := completed + 1;
      }
    }

    // verbUpgradeP2PToHybrid with n progress steps: n - 2 installer steps, a restage and
    // the publication of the mode.
    method UpgradeP2PToHybrid(n: nat) returns (err: Option<string>)
      requires sent == [] && completed == 0 && n >= 2
      modifies this
      ensures sent == Reports(completed) && completed <= n
      ensures err == None <==> completed == n
      // the mode is published last, and only an unfinished publication is in doubt
      ensures err == None ==> mode == "hybrid"
      ensures mode != old(mode) ==> old(mode) == "tor" && mode == "hybrid" && completed >= n - 1
      ensures calm && old(mode) == "tor" ==> err == None
    {
      if mode != "tor" {
        return Some("hybrid P2P upgrade requires authoritative mode tor");
      }
      var found: bool := *;
      if !found && !calm {
        return Some("could not determine this box's public IPv4 address");
      }
      err := RunSteps(n - 2);
      if err != None {
        return;
      }
      var ok := Effect();
      if !ok {
        return Some("restage");
      }
      EmitStep(n - 2);
      ok := SaveMode("hybrid");
      if !ok {
        return Some("publish P2P setting");
      }
      EmitStep(n - 1);
    }

    // verbPackageUpdate: a postcondition may still fail after the last step.
    method PackageUpdate(n: nat) returns (err: Option<string>)
      requires sent == [] && completed == 0
      modifies this`completed, this`sent
      ensures sent == Reports(completed) && completed <= n
      ensures err == None ==> completed == n
      ensures calm ==> err == None
    {
      err := RunSteps(n);
      if err == None {
        var consistent: bool := *;
        if !consistent && !calm {
          err := Some("packages left in an inconsistent state after upgrade");
        }
      }
    }

    // The terminator of handleConn.
    method WriteEnd(err: Option<string>)
      modifies this`sent
      ensures sent == old(sent) + [if err == None then End(true, "", NoPayload) else End(false, err.value, NoPayload)]
    {
      sent := sent + [if err == None then End(true, "", NoPayload) else End(false, err.value, NoPayload)];
    }
  }

  // What the root side sends in all: k completed steps of n, then how it went.
  ghost predicate Transcript(sent: seq<Event>, k: nat, n: nat, end: Event) {
    && k <= n && sent == Reports(k) + [end] && end.End? && end.result == NoPayload
    && (end.ok ==> k == n)
  }

  /* ---- The client's step list ---- */

  // buildHelperSteps: the steps share one session, which the first one opens.
  class StepList {
    const n: nat
    const lines: seq<Line>
    const closing: Closing
    const reachable: bool
    var session: Session?

    constructor (n: nat, lines: seq<Line>, closing: Closing, reachable: bool)
      ensures session == null && this.n == n && this.reachable == reachable
      ensures this.lines == lines && this.closing == closing
    {
      this.n, this.lines, this.closing, this.reachable, session := n, lines, closing, reachable, null;
    }

    ghost predicate Ready(i: nat)
      reads this, session
    {
      i > 0 ==>
        && session != null && session.Valid() && session.err == None
        && session.lines == lines && session.closing == closing
    }

    // What step i of the list reports, once the earlier ones succeeded.
    ghost function Outcome(i: nat): Option<Failure>
      requires i < n
    {
      if !reachable && i == 0 then Some(Unreachable)
      else if Verdict(lines, closing, i) != None then Verdict(lines, closing, i)
      else if i == n - 1 then WaitVerdict(lines, closing, false)
      else None
    }

    // Fn of step i.
    method RunStep(i: nat) returns (r: Option<Failure>)
      requires i < n && Ready(i)
      modifies this, session
      ensures r == Outcome(i)
      ensures r == None && i < n - 1 ==> Ready(i + 1)
      ensures session == old(session) || fresh(session)
    {
      if i == 0 {
        if !reachable {
          return Some(Unreachable);
        }
        session := new Session(lines, closing);
      }
      if session == null {
        return Some(NoSession);
      }
      r := session.WaitStep(i);
      if r != None {
        return;
      }
      if i == n - 1 {
        r := session.Wait(false);
      }
    }

    // The step runner: in order, up to the first failure.
    method Run() returns (done: nat, r: Option<Failure>)
      requires session == null
      modifies this
      ensures done <= n && (r == None <==> done == n)
      ensures forall i | 0 <= i < done :: Outcome(i) == None
      ensures done < n ==> r == Outcome(done)
    {
      done := 0;
      while done < n
        invariant done <= n && (done < n ==> Ready(done)) && (session == null || fresh(session))
        invariant forall i | 0 <= i < done :: Outcome(i) == None
      {
        r := RunStep(done);
        if r != None {
          return;
        }
        done := done + 1;
      }
      r := None;
    }
  }

  /* ---- Both sides ---- */

  // However events are lost, cut off, repeated or mixed with garbage: if only what was sent
  // is delivered, a step is reported done only if it was, and the end only if all were.
  lemma {:induction false} NoFalseProgress(lines: seq<Line>, closing: Closing, i: int,
                                           sent: seq<Event>, k: nat, n: nat, end: Event)
    requires Transcript(sent, k, n, end)
    requires forall l | l in lines && l.Delivered? :: l.ev in sent
    requires Verdict(lines, closing, i) == None
    ensures i >= 0 ==> i < k
    ensures i < 0 ==> end.ok && k == n
  {
    assert lines[0] in lines;
    var stop := lines[0].Delivered? && (lines[0].ev.End? || (lines[0].ev.Step? && i >= 0 && lines[0].ev.index == i));
    if stop {
      assert lines[0].ev in sent;
    } else {
      forall l | l in lines[1..] && l.Delivered? ensures l.ev in sent {
        assert l in lines;
      }
      NoFalseProgress(lines[1..], closing, i, sent, k, n, end);
    }
  }

  function Delivery(sent: seq<Event>): seq<Line> {
    seq(|sent|, i requires 0 <= i < |sent| => Delivered(sent[i]))
  }

  // On an intact stream exactly the completed steps succeed, and then the terminator speaks.
  lemma IntactStream(closing: Closing, i: int, sent: seq<Event>, k: nat, n: nat, end: Event)
    requires Transcript(sent, k, n, end)
    ensures Verdict(Delivery(sent), closing, i) ==
            if 0 <= i < k then None
            else if !end.ok then Some(OperationFailed(end.error))
            else if i >= 0 then Some(NotReported(i)) else None
    ensures Terminator(Delivery(sent)) == Some(end)
  {
    var lines := Delivery(sent);
    forall l | l in lines[..k] ensures Harmless(l) {
      var j :| 0 <= j < k && lines[j] == l;
    }
    ReadPast(lines, k, closing, i);
    TerminatorAfter(lines, k);
    assert lines[k..][0] == Delivered(end);
    if 0 <= i < k {
      assert lines[i] in lines[..k] && lines[i] == Delivered(Step(i, ""));
    }
    forall j | j in Reported(lines[..k]) ensures 0 <= j < k {
      var l :| l in lines[..k] && l.Delivered? && l.ev.Step? && l.ev.err == "" && l.ev.index == j;
      var m :| 0 <= m < k && lines[m] == l;
    }
  }

  // One whole upgrade over a connection that delivers `lines`, as long as everything
  // delivered was sent, or delivers everything.
  method UpgradeThroughHelper(mode: string, n: nat, lines: seq<Line>, closing: Closing,
                              reachable: bool, intact: bool, calm: bool)
    returns (host: Host, done: nat, r: Option<Failure>)
    requires n >= 2
    // no step is shown as done that was not, and success means the mode is published
    ensures done <= host.completed <= n
    ensures r == None ==> done == n && host.completed == n && host.mode == "hybrid"
    // an intact connection shows exactly the completed steps and the reason for the rest
    ensures intact && reachable ==> done == host.completed && (r == None <==> host.completed == n)
    ensures intact && reachable && r != None ==> r.value.OperationFailed?
    ensures calm && mode == "tor" && intact && reachable ==> r == None
  {
    host := new Host(mode, calm);
    var err := host.UpgradeP2PToHybrid(n);
    ghost var k := host.completed;
    host.WriteEnd(err);
    ghost var end := host.sent[k];
    assert Transcript(host.sent, k, n, end);
    var received := lines;
    if intact || exists l :: l in lines && l.Delivered? && l.ev !in host.sent {
      received := Delivery(host.sent);
    }
    forall l | l in received && l.Delivered? ensures l.ev in host.sent {
    }
    var steps := new StepList(n, received, closing, reachable);
    done, r := steps.Run();
    if done > 0 {
      assert steps.Outcome(0) == None && steps.Outcome(done - 1) == None;
      NoFalseProgress(received, closing, done - 1, host.sent, k, n, end);
    }
    assert done < n ==> r == steps.Outcome(done);
    if intact {
      IntactStream(closing, if done < n then done else 0, host.sent, k, n, end);
      IntactStream(closing, -1, host.sent, k, n, end);
    }
    if r == None {
      NoFalseProgress(received, closing, -1, host.sent, k, n, end);
    }
  }
}
