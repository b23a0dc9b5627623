/**
 The outcome of a Lightning payment (internal/lndrpc/payments.go): one send, an update stream
 that may break at any point, and re-attachment by payment hash until a deadline. LND settles
 a payment once and for good; the client must never report an outcome of its own making.
 */
module Payments {
  import opened Basics

  const DEADLINE: nat := 120_000        // milliseconds
  const RETRY: nat := 2_000
  const MAX_TRACKS: nat := 60

  datatype Terminal = Succeeded | Failed
  datatype Update = InFlight | Settled(outcome: Terminal, detail: string)

  datatype SendResult = SendError | Outcome(update: Update)

  // Half a percent, but at least 30 sats; 1000 without an amount.
  function PaymentFeeLimitSat(amountSats: int): (limit: int)
    ensures amountSats <= 0 ==> limit == 1000
    ensures 0 < amountSats < 6000 ==> limit == 30
    ensures amountSats >= 6000 ==> 200 * limit <= amountSats < 200 * (limit + 1)
  {
    if amountSats <= 0 then 1000
    else if amountSats / 200 < 30 then 30 else amountSats / 200
  }

  // A gRPC update stream: it delivers finitely many updates before it breaks.
  class Stream {
    var left: nat
    constructor ()
    {
      var updates: int := *;
      left := if updates < 0 then 0 else updates;
    }
  }

  // LND as one payment sees it, and the connection to it.
  class Lnd {
    var now: nat
    var sends: nat                     // SendPaymentV2 calls
    var streams: nat                   // those that gave a stream
    var amount: Option<int>            // what the last request decoded to
    var hash: Option<string>           // its payment hash, if that is 32 bytes of hex
    var tracks: nat                    // TrackPaymentV2 calls
    var settled: Option<Terminal>
    var delivered: seq<Update>         // terminal updates handed to the client
    var drops: nat                     // how often the client found no connection
    var feeLimit: int                  // of the last send

    constructor ()
      ensures Valid() && sends == 0 && tracks == 0 && delivered == [] && drops == 0
    {
      now, sends, streams, tracks, settled, delivered, drops, feeLimit := 0, 0, 0, 0, None, [], 0, 0;
      amount, hash := None, None;
    }

    // Everything delivered is what happened.
    ghost predicate Valid()
      reads this
    {
      forall u | u in delivered :: u.Settled? && settled == Some(u.outcome)
    }

    // Time passes, and an unsettled payment may settle.
    method Pass(least: nat)
      requires Valid()
      modifies this`now, this`settled
      ensures Valid() && now >= old(now) + least
      ensures old(settled) != None ==> settled == old(settled)
    {
      var more: int := *;
      now := now + least + if more < 0 then 0 else more;
      var outcome: Option<Terminal> := *;
      if settled == None && sends > 0 {
        settled := outcome;
      }
    }

    method Connected() returns (up: bool)
      modifies this`drops
      ensures drops == old(drops) + if up then 0 else 1
    {
      up := *;
      drops := drops + if up then 0 else 1;
    }

    // DecodePayReq: it may fail, and the hash may be malformed.
    method DecodePayReq()
      modifies this`amount, this`hash
    {
      amount, hash := *, *;
      if amount == None {
        hash := None;
      }
    }

    method SendPaymentV2(limit: int) returns (stream: Stream?)
      requires Valid()
      modifies this`now, this`settled, this`sends, this`streams, this`feeLimit
      ensures Valid() && sends == old(sends) + 1 && feeLimit == limit && now >= old(now)
      ensures streams == old(streams) + if stream != null then 1 else 0
      ensures old(settled) != None ==> settled == old(settled)
      ensures stream != null ==> fresh(stream)
    {
      sends, feeLimit := sends + 1, limit;
      Pass(0);
      stream := null;
      var opens: bool := *;
      if opens {
        streams := streams + 1;
        stream := new Stream();
      }
    }

    method TrackPaymentV2() returns (stream: Stream?)
      requires Valid()
      modifies this`now, this`settled, this`tracks
      ensures Valid() && tracks == old(tracks) + 1 && now >= old(now)
      ensures old(settled) != None ==> settled == old(settled)
      ensures stream != null ==> fresh(stream)
    {
      tracks := tracks + 1;
      Pass(0);
      stream := null;
      var opens: bool := *;
      if opens {
        stream := new Stream();
      }
    }

    // Recv: an update that is true, or the end of the stream. Past the deadline the context
    // ends every stream.
    method Recv(stream: Stream, deadline: nat) returns (u: Option<Update>)
      requires Valid()
      modifies this`now, this`settled, this`delivered, stream
      ensures Valid() && now >= old(now) && (old(settled) != None ==> settled == old(settled))
      ensures u.Some? ==> stream.left < old(stream.left)
      ensures delivered == if u.Some? && u.value.Settled? then old(delivered) + [u.value] else old(delivered)
    {
      Pass(0);
      var breaks: bool := *;
      if stream.left == 0 || breaks || now >= deadline {
        return None;
      }
      stream.left := stream.left - 1;
      var terminal: bool, detail: string := *, *;
      if terminal && settled.Some? {
        u := Some(Settled(settled.value, detail));
        delivered := delivered + [u.value];
      } else {
        u := Some(InFlight);
      }
    }
  }

  // Reads a stream up to its first terminal update.
  method ReadOutcome(lnd: Lnd, stream: Stream, deadline: nat) returns (u: Option<Update>)
    requires lnd.Valid()
    modifies lnd`now, lnd`settled, lnd`delivered, stream
    ensures lnd.Valid() && lnd.now >= old(lnd.now) && (old(lnd.settled) != None ==> lnd.settled == old(lnd.settled))
    ensures lnd.delivered == if u.Some? then old(lnd.delivered) + [u.value] else old(lnd.delivered)
    ensures u.Some? ==> u.value.Settled?
  {
    while true
      invariant lnd.Valid() && lnd.now >= old(lnd.now) && lnd.delivered == old(lnd.delivered)
      invariant old(lnd.settled) != None ==> lnd.settled == old(lnd.settled)
      decreases stream.left
    {
      u := lnd.Recv(stream, deadline);
      if u == None || u.value.Settled? {
        return;
      }
    }
  }

  // recoverPaymentOutcome: re-attaches by hash until a terminal update arrives, the
  // connection is gone, or the deadline passes.
  method RecoverPaymentOutcome(lnd: Lnd, hash: Option<string>, deadline: nat) returns (r: SendResult)
    requires lnd.Valid() && deadline <= lnd.now + DEADLINE
    modifies lnd`now, lnd`settled, lnd`delivered, lnd`tracks, lnd`drops
    ensures lnd.Valid() && lnd.now >= old(lnd.now) && (old(lnd.settled) != None ==> lnd.settled == old(lnd.settled))
    ensures r.SendError? <==> hash == None
    ensures r.Outcome? && r.update.Settled? ==> lnd.delivered == old(lnd.delivered) + [r.update]
    ensures r.SendError? || r.update.InFlight? ==> lnd.delivered == old(lnd.delivered)
    // it gives up only at the deadline or without a connection
    ensures r == Outcome(InFlight) ==> lnd.now >= deadline || lnd.drops > old(lnd.drops)
    ensures old(lnd.tracks) <= lnd.tracks <= old(lnd.tracks) + MAX_TRACKS
    // and not without having tried
    ensures hash.Some? && old(lnd.now) < deadline && lnd.tracks == old(lnd.tracks) ==> lnd.drops > old(lnd.drops)
  {
    if hash == None {
      return SendError;
    }
    ghost var start := lnd.now;
    while lnd.now < deadline
      invariant lnd.Valid() && lnd.now >= old(lnd.now) && lnd.delivered == old(lnd.delivered)
      invariant old(lnd.settled) != None ==> lnd.settled == old(lnd.settled)
      invariant lnd.tracks >= old(lnd.tracks) && (lnd.tracks == old(lnd.tracks) ==> lnd.now == start)
      invariant lnd.now >= deadline || lnd.now >= start + RETRY * (lnd.tracks - old(lnd.tracks))
      invariant lnd.tracks <= old(lnd.tracks) + MAX_TRACKS && lnd.drops >= old(lnd.drops)
      decreases deadline - lnd.now
    {
      var up := lnd.Connected();
      if !up {
        break;
      }
      var stream := lnd.TrackPaymentV2();
      if stream != null {
        var u := ReadOutcome(lnd, stream, deadline);
        if u.Some? {
          return Outcome(u.value);
        }
      }
      lnd.Pass(if lnd.now + RETRY <= deadline then RETRY else if lnd.now < deadline then deadline - lnd.now else 0);
    }
    r := Outcome(InFlight);
  }

  method SendPayment(lnd: Lnd) returns (r: SendResult)
    requires lnd.Valid()
    modifies lnd
    ensures lnd.Valid() && (old(lnd.settled) != None ==> lnd.settled == old(lnd.settled))
    // one payment is started, or none without a connection, under the fee limit of its amount
    ensures
      || lnd.sends == old(lnd.sends) + 1
      || (lnd.sends == old(lnd.sends) && lnd.drops > old(lnd.drops) && r.SendError?)
    ensures lnd.sends > old(lnd.sends) ==>
      lnd.feeLimit == if lnd.amount.Some? then PaymentFeeLimitSat(lnd.amount.value) else 1000
    // a terminal status is reported exactly if a stream delivered it, and is the truth
    ensures r.Outcome? && r.update.Settled? <==> lnd.delivered != old(lnd.delivered)
    ensures r.Outcome? && r.update.Settled? ==>
      lnd.delivered == old(lnd.delivered) + [r.update] && lnd.settled == Some(r.update.outcome)
    // a payment that may be running is never reported as an error once it can be tracked,
    // and in flight only at the deadline or without a connection
    ensures lnd.streams == old(lnd.streams) ==> r.SendError?
    ensures r.SendError? ==> lnd.streams == old(lnd.streams) || lnd.hash == None
    ensures r == Outcome(InFlight) ==>
      lnd.hash.Some? && (lnd.now >= old(lnd.now) + DEADLINE || lnd.drops > old(lnd.drops))
    ensures old(lnd.tracks) <= lnd.tracks <= old(lnd.tracks) + MAX_TRACKS
  {
    var up := lnd.Connected();
    if !up {
      return SendError;
    }
    lnd.DecodePayReq();
    var limit := 1000;
    if lnd.amount.Some? {
      limit := PaymentFeeLimitSat(lnd.amount.value);
    }
    var deadline := lnd.now + DEADLINE;
    var stream := lnd.SendPaymentV2(limit);
    if stream == null {
      return SendError;
    }
    var u := ReadOutcome(lnd, stream, deadline);
    if u.Some? {
      return Outcome(u.value);
    }
    r := RecoverPaymentOutcome(lnd, lnd.hash, deadline);
  }
}
