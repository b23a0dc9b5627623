/**
 Opening a channel from hand-picked coins (internal/app/channel_open.go,
 internal/app/coin_selection.go, internal/lndrpc/queries.go): what a reviewed request may
 contain, and that the one funding call spends coins that were listed in the same run.
 */
module ChannelFunding {
  import opened Basics
  import opened SatsFormat

  const MAX_SATOSHI: int := 21_000_000 * 100_000_000

  newtype byte = x: int | 0 <= x < 256
  newtype uint32 = x: int | 0 <= x < 0x1_0000_0000

  /* ---- Hex ---- */

  function HexDigit(n: int): char
    requires 0 <= n < 16
  {
    if n < 10 then '0' + n as char else 'a' + (n - 10) as char
  }

  function HexValue(c: char): Option<int> {
    if '0' <= c <= '9' then Some((c - '0') as int)
    else if 'a' <= c <= 'f' then Some((c - 'a') as int + 10)
    else if 'A' <= c <= 'F' then Some((c - 'A') as int + 10)
    else None
  }

  function LowerChar(c: char): char {
    if 'A' <= c <= 'Z' then c - 'A' + 'a' else c
  }

  function ToLower(s: string): (r: string)
    ensures |r| == |s| && forall i | 0 <= i < |s| :: r[i] == LowerChar(s[i])
  {
    seq(|s|, i requires 0 <= i < |s| => LowerChar(s[i]))
  }

  function HexEncode(b: seq<byte>): (s: string)
    ensures |s| == 2 * |b|
  {
    if b == [] then "" else [HexDigit(b[0] as int / 16), HexDigit(b[0] as int % 16)] + HexEncode(b[1..])
  }

  // hex.DecodeString: both cases, an even number of digits.
  function HexDecode(s: string): (r: Option<seq<byte>>)
    ensures r.Some? ==> |s| == 2 * |r.value|
  {
    if s == "" then Some([])
    else if |s| == 1 then None
    else
      var hi, lo, rest := HexValue(s[0]), HexValue(s[1]), HexDecode(s[2..]);
      if hi.Some? && lo.Some? && rest.Some? then Some([(16 * hi.value + lo.value) as byte] + rest.value) else None
  }

  lemma {:induction false} HexRoundTrip(b: seq<byte>)
    ensures HexDecode(HexEncode(b)) == Some(b)
  {
    if b != [] {
      HexRoundTrip(b[1..]);
      HexDigitValue(b[0] as int / 16);
      HexDigitValue(b[0] as int % 16);
      var s := HexEncode(b);
      assert s[0] == HexDigit(b[0] as int / 16) && s[1] == HexDigit(b[0] as int % 16) && s[2..] == HexEncode(b[1..]);
      assert b == [b[0]] + b[1..];
    }
  }

  lemma HexDigitValue(n: int)
    requires 0 <= n < 16
    ensures HexValue(HexDigit(n)) == Some(n)
  {
  }

  // Two hex strings name the same bytes exactly if they differ in case alone.
  lemma {:induction false} HexIdentity(a: string, b: string)
    requires HexDecode(a).Some? && HexDecode(b).Some?
    ensures HexDecode(a) == HexDecode(b) <==> ToLower(a) == ToLower(b)
  {
    if a == "" || b == "" {
      assert ToLower(a) == ToLower(b) ==> |a| == |b|;
    } else {
      HexIdentity(a[2..], b[2..]);
      HexCase(a[0], b[0]);
      HexCase(a[1], b[1]);
      DecodedEqual(a, b);
      LowerEqual(a, b);
    }
  }

  lemma DecodedEqual(a: string, b: string)
    requires a != "" && b != "" && HexDecode(a).Some? && HexDecode(b).Some?
    ensures |a| >= 2 && |b| >= 2
    ensures HexDecode(a) == HexDecode(b) <==>
            && HexValue(a[0]) == HexValue(b[0]) && HexValue(a[1]) == HexValue(b[1])
            && HexDecode(a[2..]) == HexDecode(b[2..])
  {
    HexStep(a);
    HexStep(b);
    SplitEqual(HexDecode(a).value, HexDecode(b).value, 1);
  }

  lemma LowerEqual(a: string, b: string)
    requires |a| >= 2 && |b| >= 2
    ensures ToLower(a) == ToLower(b) <==>
            && LowerChar(a[0]) == LowerChar(b[0]) && LowerChar(a[1]) == LowerChar(b[1])
            && ToLower(a[2..]) == ToLower(b[2..])
  {
    LowerStep(a);
    LowerStep(b);
    SplitEqual(ToLower(a), ToLower(b), 2);
  }

  lemma SplitEqual<T>(x: seq<T>, y: seq<T>, n: nat)
    requires n <= |x| && n <= |y|
    ensures x == y <==> x[..n] == y[..n] && x[n..] == y[n..]
  {
    assert x == x[..n] + x[n..] && y == y[..n] + y[n..];
  }

  // The first byte and the rest.
  lemma HexStep(s: string)
    requires s != "" && HexDecode(s).Some?
    ensures |s| >= 2 && HexValue(s[0]).Some? && HexValue(s[1]).Some? && HexDecode(s[2..]).Some?
    ensures var b := HexDecode(s).value;
            b[..1] == [(16 * HexValue(s[0]).value + HexValue(s[1]).value) as byte] && b[1..] == HexDecode(s[2..]).value
  {
  }

  lemma LowerStep(s: string)
    requires |s| >= 2
    ensures ToLower(s)[..2] == [LowerChar(s[0]), LowerChar(s[1])] && ToLower(s)[2..] == ToLower(s[2..])
  {
  }

  lemma HexCase(a: char, b: char)
    requires HexValue(a).Some? && HexValue(b).Some?
    ensures HexValue(a) == HexValue(b) <==> LowerChar(a) == LowerChar(b)
  {
  }

  /* ---- Outpoints ---- */

  datatype Utxo = Utxo(txid: string, vout: uint32, amount: int64)

  datatype Outpoint = Outpoint(txidStr: string, index: uint32)

  // coinOutpoint.
  function CoinOutpoint(coin: Utxo): string {
    coin.txid + ":" + Decimal(coin.vout as int)
  }

  function IndexOf(s: string, c: char): (i: nat)
    ensures i <= |s| && (i < |s| ==> s[i] == c) && c !in s[..i]
  {
    if s == "" || s[0] == c then 0 else
    var i := 1 + IndexOf(s[1..], c);
    assert s[..i] == [s[0]] + s[1..][..i - 1];
    i
  }

  // strconv.ParseUint(s, 10, 32).
  function ParseUint32(s: string): Option<uint32> {
    if s != "" && Digits(s) && Number(s) < 0x1_0000_0000 then Some(Number(s) as uint32) else None
  }

  // parseOutpoint: 32 bytes of hex, a colon, a 32-bit number, and nothing else.
  function ParseOutpoint(op: string): Option<Outpoint> {
    var i := IndexOf(op, ':');
    if i == |op| then None else
    var txid := HexDecode(op[..i]);
    if txid == None || |txid.value| != 32 then None else
    var index := ParseUint32(op[i + 1..]);
    if index == None then None else Some(Outpoint(op[..i], index.value))
  }

  // A coin's own outpoint parses back to the coin.
  lemma OutpointRoundTrip(coin: Utxo)
    requires HexDecode(coin.txid).Some? && |coin.txid| == 64
    ensures ParseOutpoint(CoinOutpoint(coin)) == Some(Outpoint(coin.txid, coin.vout))
  {
    var op := CoinOutpoint(coin);
    HexHasNoColon(coin.txid);
    var i := IndexOf(op, ':');
    assert op[|coin.txid|] == ':';
    assert i >= |coin.txid| by {
      assert forall k | 0 <= k < |coin.txid| :: op[k] == coin.txid[k] && coin.txid[k] in coin.txid;
    }
    assert op[..i] == coin.txid && op[i + 1..] == Decimal(coin.vout as int);
    DecimalReads(coin.vout as int);
  }

  lemma {:induction false} HexHasNoColon(s: string)
    requires HexDecode(s).Some?
    ensures ':' !in s
  {
    if s != "" {
      HexHasNoColon(s[2..]);
      assert s == [s[0], s[1]] + s[2..];
    }
  }

  // Nothing in an accepted text is dropped: it is the transaction ID, a colon and the index.
  lemma OutpointIsWholeText(op: string) returns (index: string)
    requires ParseOutpoint(op).Some?
    ensures var o := ParseOutpoint(op).value;
            && op == o.txidStr + ":" + index && |o.txidStr| == 64 && HexDecode(o.txidStr).Some?
            && index != "" && Digits(index) && Number(index) == o.index as int
  {
    var i := IndexOf(op, ':');
    index := op[i + 1..];
    assert op == op[..i] + ":" + index;
  }

  // The transaction output an outpoint text denotes, whatever its case and leading zeros.
  function Denotes(o: Outpoint): (Option<seq<byte>>, uint32) {
    (HexDecode(o.txidStr), o.index)
  }

  /* ---- Coins ---- */

  predicate Distinct<T(==)>(s: seq<T>) {
    forall i, j | 0 <= i < j < |s| :: s[i] != s[j]
  }

  // The coin that stands for an outpoint in a list: the last one there.
  function Lookup(available: seq<Utxo>, op: string): (r: Option<Utxo>)
    ensures r.Some? ==> r.value in available && CoinOutpoint(r.value) == op
    ensures r == None ==> forall c | c in available :: CoinOutpoint(c) != op
  {
    if available == [] then None
    else if CoinOutpoint(available[|available| - 1]) == op then Some(available[|available| - 1])
    else
      var r := Lookup(available[..|available| - 1], op);
      assert available == available[..|available| - 1] + [available[|available| - 1]];
      r
  }

  predicate Resolvable(ops: seq<string>, available: seq<Utxo>) {
    Distinct(ops) && forall op | op in ops :: Lookup(available, op).Some?
  }

  function Coins(ops: seq<string>, available: seq<Utxo>): (coins: seq<Utxo>)
    requires Resolvable(ops, available)
    ensures |coins| == |ops| && forall i | 0 <= i < |ops| :: Some(coins[i]) == Lookup(available, ops[i])
  {
    seq(|ops|, i requires 0 <= i < |ops| => Lookup(available, ops[i]).value)
  }

  // resolveCoins: every selected outpoint once, each in the list, or an error.
  method ResolveCoins(ops: seq<string>, available: seq<Utxo>) returns (r: Option<seq<Utxo>>)
    ensures r == if Resolvable(ops, available) then Some(Coins(ops, available)) else None
  {
    var byOutpoint: map<string, Utxo> := map[];
    for i := 0 to |available|
      invariant forall op :: Lookup(available[..i], op) == if op in byOutpoint then Some(byOutpoint[op]) else None
    {
      assert available[..i + 1][..i] == available[..i];
      byOutpoint := byOutpoint[CoinOutpoint(available[i]) := available[i]];
    }
    assert available[..|available|] == available;
    var coins: seq<Utxo> := [];
    var seen: set<string> := {};
    for i := 0 to |ops|
      invariant |coins| == i && (forall j | 0 <= j < i :: Some(coins[j]) == Lookup(available, ops[j]))
      invariant seen == (set op | op in ops[..i]) && Distinct(ops[..i])
    {
      var op := ops[i];
      if op in seen {
        var j :| 0 <= j < i && ops[..i][j] == op;
        assert ops[j] == ops[i];
        return None;
      }
      if op !in byOutpoint {
        assert op in ops && Lookup(available, op) == None;
        return None;
      }
      assert ops[..i + 1] == ops[..i] + [op];
      seen := seen + {op};
      coins := coins + [byOutpoint[op]];
    }
    assert ops[..|ops|] == ops;
    assert forall op | op in ops :: Lookup(available, op).Some?;
    assert coins == Coins(ops, available);
    r := Some(coins);
  }

  /* ---- Preparation ---- */

  datatype Request = Request(pubkey: string, amount: int64, fundMax: bool, isPrivate: bool, taproot: bool,
                             satPerVbyte: int, outpoints: seq<string>, minConfs: int, spendUnconfirmed: bool)

  // A reviewed request; the default one stands for nothing reviewed.
  datatype Prepared = Prepared(request: Request, host: string, total: int64)

  // `peer` is what ValidateChannelPeer makes of key and host.
  datatype Input = Input(peer: Option<(string, string)>, amount: int64, fundMax: bool, isPrivate: bool,
                         taproot: bool, satPerVbyte: int64, outpoints: seq<string>)

  function Sum(coins: seq<Utxo>): int {
    if coins == [] then 0 else Sum(coins[..|coins| - 1]) + coins[|coins| - 1].amount as int
  }

  predicate Positive(coins: seq<Utxo>) {
    forall c | c in coins :: c.amount > 0
  }

  // Positive amounts: no partial sum exceeds the whole.
  lemma {:induction false} PartialSum(coins: seq<Utxo>, i: nat)
    requires Positive(coins) && i <= |coins|
    ensures 0 <= Sum(coins[..i]) <= Sum(coins)
    decreases |coins|
  {
    if i == |coins| {
      assert coins[..i] == coins;
      if i > 0 {
        PartialSum(coins[..i - 1], i - 1);
        assert coins[..i - 1][..i - 1] == coins[..i - 1];
        assert coins[i - 1] in coins;
      }
    } else {
      var init := coins[..|coins| - 1];
      PartialSum(init, i);
      assert init[..i] == coins[..i] && coins[|coins| - 1] in coins;
    }
  }

  // ValidateChannelAmount.
  predicate ValidChannelAmount(amount: int64) {
    20_000 <= amount <= 1_000_000_000
  }

  // The coins are distinct, listed, worth something, and together within all there is.
  predicate Spendable(ops: seq<string>, available: seq<Utxo>) {
    && ops != [] && Resolvable(ops, available) && Positive(Coins(ops, available))
    && Sum(Coins(ops, available)) <= MAX_SATOSHI
  }

  predicate Acceptable(input: Input, available: seq<Utxo>) {
    && input.peer.Some? && (input.taproot ==> input.isPrivate)
    && 0 <= input.satPerVbyte as int <= MAX / 1000
    && Spendable(input.outpoints, available)
    && var total := Sum(Coins(input.outpoints, available));
       if input.fundMax then total >= 20_000 else ValidChannelAmount(input.amount) && input.amount as int < total
  }

  // The accumulation of PrepareChannelOpen, which stops before it could overflow.
  method TotalOf(coins: seq<Utxo>) returns (total: Option<int64>)
    ensures total.Some? <==> Positive(coins) && Sum(coins) <= MAX_SATOSHI
    ensures total.Some? ==> total.value as int == Sum(coins)
  {
    var sum: int64 := 0;
    for i := 0 to |coins|
      invariant Positive(coins[..i]) && 0 <= sum as int == Sum(coins[..i]) <= MAX_SATOSHI
    {
      var coin := coins[i];
      assert coins[..i + 1][..i] == coins[..i] && coins[..i + 1] == coins[..i] + [coin];
      if coin.amount <= 0 || coin.amount as int > MAX_SATOSHI - sum as int {
        if Positive(coins) {
          assert coin in coins;
          PartialSum(coins, i + 1);
        } else {
          assert !Positive(coins);
        }
        return None;
      }
      sum := sum + coin.amount;
    }
    assert coins[..|coins|] == coins;
    total := Some(sum);
  }

  // PrepareChannelOpen accepts exactly the acceptable inputs; the total is the exact sum.
  method PrepareChannelOpen(input: Input, available: seq<Utxo>) returns (r: Option<Prepared>)
    ensures r.Some? <==> Acceptable(input, available)
    ensures r.Some? ==>
      var p := r.value;
      && p.total as int == Sum(Coins(input.outpoints, available)) <= MAX_SATOSHI
      && p.request.amount == (if input.fundMax then 0 else input.amount) && p.request.amount < p.total
      && p.request == Request(input.peer.value.0, p.request.amount, input.fundMax, input.isPrivate, input.taproot,
                              input.satPerVbyte as int, input.outpoints, 0, true)
      && p.host == input.peer.value.1
  {
    if input.peer == None || (input.taproot && !input.isPrivate) || input.satPerVbyte < 0 ||
       input.satPerVbyte as int > MAX / 1000 || input.outpoints == [] {
      return None;
    }
    var coins := ResolveCoins(input.outpoints, available);
    if coins == None {
      return None;
    }
    var total := TotalOf(coins.value);
    if total == None {
      return None;
    }
    var amount := input.amount;
    if input.fundMax {
      amount := 0;
      if total.value < 20_000 {
        return None;
      }
    } else {
      if !ValidChannelAmount(amount) || amount >= total.value {
        return None;
      }
    }
    r := Some(Prepared(Request(input.peer.value.0, amount, input.fundMax, input.isPrivate, input.taproot,
                               input.satPerVbyte as int, input.outpoints, 0, true),
                       input.peer.value.1, total.value));
  }

  /* ---- The funding call ---- */

  // lnrpc.OpenChannelRequest.
  datatype WireRequest = WireRequest(nodePubkey: seq<byte>, amount: int64, isPrivate: bool, minConfs: int,
                                     spendUnconfirmed: bool, scidAlias: bool, fundMax: bool, satPerVbyte: int,
                                     taproot: bool, outpoints: seq<Outpoint>)

  function Identity(o: Outpoint): (string, uint32) {
    (ToLower(o.txidStr), o.index)
  }

  predicate AllParse(ops: seq<string>) {
    forall op | op in ops :: ParseOutpoint(op).Some?
  }

  function Parsed(ops: seq<string>): (r: seq<Outpoint>)
    requires AllParse(ops)
    ensures |r| == |ops| && forall i | 0 <= i < |ops| :: Some(r[i]) == ParseOutpoint(ops[i])
  {
    seq(|ops|, i requires 0 <= i < |ops| => ParseOutpoint(ops[i]).value)
  }

  // No two texts denote the same output.
  predicate Unequivocal(ops: seq<string>) {
    AllParse(ops) && forall i, j | 0 <= i < j < |ops| :: Denotes(Parsed(ops)[i]) != Denotes(Parsed(ops)[j])
  }

  predicate Buildable(input: Request) {
    && (input.taproot ==> input.isPrivate)
    && HexDecode(input.pubkey).Some? && |HexDecode(input.pubkey).value| == 33
    && input.outpoints != [] && (input.fundMax ==> input.amount == 0)
    && Unequivocal(input.outpoints)
  }

  // Equal identities mean the same output, in spite of different spellings.
  lemma IdentityDenotes(a: string, b: string)
    requires ParseOutpoint(a).Some? && ParseOutpoint(b).Some?
    ensures Identity(ParseOutpoint(a).value) == Identity(ParseOutpoint(b).value)
       <==> Denotes(ParseOutpoint(a).value) == Denotes(ParseOutpoint(b).value)
  {
    HexIdentity(ParseOutpoint(a).value.txidStr, ParseOutpoint(b).value.txidStr);
  }

  // The outpoint loop of buildOpenChannelRequest: one bad or repeated entry rejects all.
  method ParseAll(ops: seq<string>) returns (r: Option<seq<Outpoint>>)
    ensures r == if Unequivocal(ops) then Some(Parsed(ops)) else None
  {
    var out: seq<Outpoint> := [];
    var seen: set<(string, uint32)> := {};
    for i := 0 to |ops|
      invariant |out| == i && forall j | 0 <= j < i :: Some(out[j]) == ParseOutpoint(ops[j])
      invariant seen == set j | 0 <= j < i :: Identity(out[j])
      invariant forall j, k | 0 <= j < k < i :: Denotes(out[j]) != Denotes(out[k])
    {
      var outpoint := ParseOutpoint(ops[i]);
      if outpoint == None {
        assert ops[i] in ops;
        return None;
      }
      if Identity(outpoint.value) in seen {
        ghost var j :| 0 <= j < i && Identity(out[j]) == Identity(outpoint.value);
        IdentityDenotes(ops[j], ops[i]);
        if AllParse(ops) {
          assert Parsed(ops)[j] == out[j] && Parsed(ops)[i] == outpoint.value;
        }
        return None;
      }
      forall j | 0 <= j < i ensures Denotes(out[j]) != Denotes(outpoint.value) {
        IdentityDenotes(ops[j], ops[i]);
      }
      seen := seen + {Identity(outpoint.value)};
      out := out + [outpoint.value];
    }
    forall op | op in ops ensures ParseOutpoint(op).Some? {
      var j :| 0 <= j < |ops| && ops[j] == op;
      assert Some(out[j]) == ParseOutpoint(op);
    }
    assert out == Parsed(ops);
    r := Some(out);
  }

  // buildOpenChannelRequest.
  method BuildOpenChannelRequest(input: Request) returns (r: Option<WireRequest>)
    ensures r.Some? <==> Buildable(input)
    ensures r.Some? ==>
      && r.value.outpoints == Parsed(input.outpoints) && Some(r.value.nodePubkey) == HexDecode(input.pubkey)
      && r.value.amount == input.amount && r.value.fundMax == input.fundMax && r.value.isPrivate == input.isPrivate
      && r.value.scidAlias == input.isPrivate && r.value.taproot == input.taproot
      && r.value.satPerVbyte == input.satPerVbyte
      && r.value.minConfs == input.minConfs && r.value.spendUnconfirmed == input.spendUnconfirmed
  {
    if input.taproot && !input.isPrivate {
      return None;
    }
    var pubkey := HexDecode(input.pubkey);
    if pubkey == None || |pubkey.value| != 33 || input.outpoints == [] || (input.fundMax && input.amount != 0) {
      return None;
    }
    var outpoints := ParseAll(input.outpoints);
    if outpoints == None {
      return None;
    }
    r := Some(WireRequest(pubkey.value, input.amount, input.isPrivate, input.minConfs, input.spendUnconfirmed,
                          input.isPrivate, input.fundMax, input.satPerVbyte, input.taproot, outpoints.value));
  }

  // The answer to the funding RPC.
  datatype Response = Response(txid: seq<byte>, outputIndex: uint32)

  datatype RpcResult = RpcResult(submitted: bool, failed: bool, txid: string, outputIndex: uint32)

  // LND behind the client. Requests and answers are kept as they happened.
  class Lnd {
    var connected: bool
    var submitted: seq<WireRequest>        // funding RPCs attempted
    var answers: seq<Option<Response>>     // None is an error
    var peerUp: bool                       // the last WaitForPeer succeeded
    var listed: Option<seq<Utxo>>          // the last ListUnspent, None if it failed

    constructor ()
      ensures submitted == [] && answers == []
    {
      connected, submitted, answers, peerUp, listed := *, [], [], false, None;
    }

    method ConnectPeer() returns (ok: bool)
    {
      ok := *;
    }

    method WaitForPeer() returns (ok: bool)
      modifies this`peerUp
      ensures ok == peerUp
    {
      peerUp := *;
      ok := peerUp;
    }

    method ListUnspent() returns (r: Option<seq<Utxo>>)
      modifies this`listed
      ensures r == listed
    {
      listed := *;
      r := listed;
    }

    method OpenChannelSync(req: WireRequest) returns (answer: Option<Response>)
      modifies this`submitted, this`answers
      ensures submitted == old(submitted) + [req] && answers == old(answers) + [answer]
    {
      answer := *;
      submitted, answers := submitted + [req], answers + [answer];
    }

    // OpenChannel of the RPC client: at most one call, and it says whether it was made.
    method OpenChannel(input: Request) returns (r: RpcResult)
      modifies this`submitted, this`answers
      ensures r.submitted <==> connected && Buildable(input)
      ensures r.submitted ==> |submitted| == |old(submitted)| + 1 && old(submitted) < submitted
      ensures r.submitted ==> |answers| == |old(answers)| + 1
      ensures !r.submitted ==> submitted == old(submitted)
      ensures r.submitted ==>
        var req, answer := submitted[|submitted| - 1], answers[|answers| - 1];
        && req.outpoints == Parsed(input.outpoints) && Some(req.nodePubkey) == HexDecode(input.pubkey)
        && req.amount == input.amount && req.fundMax == input.fundMax && req.isPrivate == input.isPrivate
        && req.taproot == input.taproot && req.satPerVbyte == input.satPerVbyte
        && (!r.failed <==> answer.Some? && |answer.value.txid| == 32)
        && (!r.failed ==> HexDecode(r.txid) == Some(Backwards(answer.value.txid)))
        && (!r.failed ==> r.outputIndex == answer.value.outputIndex)
        && (r.failed ==> r.txid == "")
    {
      if !connected {
        return RpcResult(false, true, "", 0);
      }
      var req := BuildOpenChannelRequest(input);
      if req == None {
        return RpcResult(false, true, "", 0);
      }
      var answer := OpenChannelSync(req.value);
      if answer == None || |answer.value.txid| != 32 {
        return RpcResult(true, true, "", 0);
      }
      var reversed := ReverseTxid(answer.value.txid);
      HexRoundTrip(reversed);
      r := RpcResult(true, false, HexEncode(reversed), answer.value.outputIndex);
    }
  }

  function Backwards(b: seq<byte>): (r: seq<byte>)
    ensures |r| == |b| && forall i | 0 <= i < |b| :: r[i] == b[|b| - 1 - i]
  {
    seq(|b|, i requires 0 <= i < |b| => b[|b| - 1 - i])
  }

  method ReverseTxid(txid: seq<byte>) returns (reversed: seq<byte>)
    requires |txid| == 32
    ensures reversed == Backwards(txid)
  {
    var out := new byte[32];
    for i := 0 to 32
      invariant forall j | 0 <= j < i :: out[j] == txid[31 - j]
    {
      out[i] := txid[31 - i];
    }
    reversed := out[..];
  }

  datatype State = NotSubmitted | Broadcast(txid: string, outputIndex: uint32) | OutcomeUnknown

  // The last funding call spends exactly these coins, each once.
  ghost predicate SpendsOnly(req: WireRequest, coins: seq<Utxo>) {
    && |req.outpoints| == |coins|
    && (forall i | 0 <= i < |coins| :: ParseOutpoint(CoinOutpoint(coins[i])) == Some(req.outpoints[i]))
    && (forall i, j | 0 <= i < j < |coins| :: Denotes(req.outpoints[i]) != Denotes(req.outpoints[j]))
  }

  // OpenChannel of the application: peer, availability, then one funding call.
  method OpenChannel(lnd: Lnd, prepared: Prepared) returns (r: State)
    modifies lnd
    ensures old(lnd.submitted) <= lnd.submitted && |lnd.submitted| <= |old(lnd.submitted)| + 1
    // not submitted means just that
    ensures r.NotSubmitted? <==> lnd.submitted == old(lnd.submitted)
    // it is submitted exactly if the peer is up and the coins are in the list just read
    ensures !r.NotSubmitted? <==>
      && lnd.connected && Buildable(prepared.request) && lnd.peerUp && lnd.listed.Some?
      && Resolvable(prepared.request.outpoints, lnd.listed.value)
    ensures !r.NotSubmitted? ==>
      && |lnd.answers| == |old(lnd.answers)| + 1
      && var req := lnd.submitted[|lnd.submitted| - 1];
         && SpendsOnly(req, Coins(prepared.request.outpoints, lnd.listed.value))
         && req.amount == prepared.request.amount && req.fundMax == prepared.request.fundMax
         && req.isPrivate == prepared.request.isPrivate && req.taproot == prepared.request.taproot
         && Some(req.nodePubkey) == HexDecode(prepared.request.pubkey)
         && req.satPerVbyte == prepared.request.satPerVbyte
    // broadcast is what LND answered; anything else after the call is unknown
    ensures r.Broadcast? ==>
      var answer := lnd.answers[|lnd.answers| - 1];
      && answer.Some? && HexDecode(r.txid) == Some(Backwards(answer.value.txid))
      && r.outputIndex == answer.value.outputIndex
    ensures r.OutcomeUnknown? ==>
      var answer := lnd.answers[|lnd.answers| - 1];
      answer == None || |answer.value.txid| != 32
  {
    var req := prepared.request;
    if req.pubkey == "" || req.outpoints == [] {
      return NotSubmitted;
    }
    // the error of a persistent connection request counts only if the peer stays away
    var connecting := lnd.ConnectPeer();
    var up := lnd.WaitForPeer();
    if !up {
      return NotSubmitted;
    }
    var available := lnd.ListUnspent();
    if available == None {
      return NotSubmitted;
    }
    var coins := ResolveCoins(req.outpoints, available.value);
    if coins == None {
      return NotSubmitted;
    }
    var result := lnd.OpenChannel(req);
    if !result.submitted {
      return NotSubmitted;
    }
    ResolvedParse(req.outpoints, available.value);
    if result.failed || result.txid == "" {
      return OutcomeUnknown;
    }
    r := Broadcast(result.txid, result.outputIndex);
  }

  lemma ResolvedParse(ops: seq<string>, available: seq<Utxo>)
    requires Resolvable(ops, available) && Unequivocal(ops)
    ensures forall i | 0 <= i < |ops| :: ParseOutpoint(CoinOutpoint(Coins(ops, available)[i])) == Some(Parsed(ops)[i])
  {
    forall i | 0 <= i < |ops| ensures ParseOutpoint(CoinOutpoint(Coins(ops, available)[i])) == Some(Parsed(ops)[i]) {
      assert Some(Coins(ops, available)[i]) == Lookup(available, ops[i]);
    }
  }

  // Coins as LND lists them: transaction ids are 32 bytes of lower-case hex.
  predicate ListedByLnd(available: seq<Utxo>) {
    forall c | c in available :: |c.txid| == 64 && HexDecode(c.txid).Some? && ToLower(c.txid) == c.txid
  }

  // What preparation accepts, the request builder never rejects.
  lemma PreparedIsBuildable(input: Input, available: seq<Utxo>, r: Request)
    requires Acceptable(input, available) && ListedByLnd(available)
    requires HexDecode(input.peer.value.0).Some? && |HexDecode(input.peer.value.0).value| == 33
    requires r.pubkey == input.peer.value.0 && r.outpoints == input.outpoints && r.fundMax == input.fundMax
    requires r.taproot == input.taproot && r.isPrivate == input.isPrivate && (r.fundMax ==> r.amount == 0)
    ensures Buildable(r)
  {
    var ops := input.outpoints;
    forall i | 0 <= i < |ops|
      ensures var coin := Coins(ops, available)[i];
              && coin in available && CoinOutpoint(coin) == ops[i]
              && ParseOutpoint(ops[i]) == Some(Outpoint(coin.txid, coin.vout))
    {
      assert Some(Coins(ops, available)[i]) == Lookup(available, ops[i]);
      OutpointRoundTrip(Coins(ops, available)[i]);
    }
    forall op | op in ops ensures ParseOutpoint(op).Some? {
      var i :| 0 <= i < |ops| && ops[i] == op;
      assert Coins(ops, available)[i] in available;
    }
    forall i, j | 0 <= i < j < |ops| ensures Denotes(Parsed(ops)[i]) != Denotes(Parsed(ops)[j]) {
      var a, b := Coins(ops, available)[i], Coins(ops, available)[j];
      assert CoinOutpoint(a) == ops[i] && CoinOutpoint(b) == ops[j];
      assert Some(Parsed(ops)[i]) == ParseOutpoint(ops[i]) && Some(Parsed(ops)[j]) == ParseOutpoint(ops[j]);
      HexIdentity(a.txid, b.txid);
    }
  }
}
