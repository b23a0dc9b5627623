/**
 The duplicate-name check on a ledger's JSON (rejectDuplicateJSONKeys in
 internal/installer/ledger.go): a loop over the decoder's tokens with an explicit stack,
 verified against the recursive meaning of the document.
 */
module JsonKeys {

  // What the decoder delivers. Malformed stands for a decoding error.
  datatype Token = OpenObject | CloseObject | OpenArray | CloseArray | Text(s: string) | Scalar | Malformed

  datatype Json =
    | Object(members: Members)
    | Array(items: Items)
    | String(s: string)
    | Other
  datatype Members = NoMembers | Member(name: string, value: Json, rest: Members)
  datatype Items = NoItems | Item(value: Json, rest: Items)

  function Tokens(j: Json): seq<Token> {
    match j
    case Object(members) => [OpenObject] + MemberTokens(members) + [CloseObject]
    case Array(items) => [OpenArray] + ItemTokens(items) + [CloseArray]
    case String(s) => [Text(s)]
    case Other => [Scalar]
  }

  function MemberTokens(m: Members): seq<Token> {
    match m
    case NoMembers => []
    case Member(name, value, rest) => [Text(name)] + Tokens(value) + MemberTokens(rest)
  }

  function ItemTokens(items: Items): seq<Token> {
    match items
    case NoItems => []
    case Item(value, rest) => Tokens(value) + ItemTokens(rest)
  }

  // No object anywhere in the tree repeats a name (section 4 of RFC 8259).
  predicate UniqueNames(j: Json) {
    match j
    case Object(members) => UniqueMembers(members, {})
    case Array(items) => UniqueItems(items)
    case _ => true
  }

  // ... where the names in `seen` are taken already.
  predicate UniqueMembers(m: Members, seen: set<string>) {
    match m
    case NoMembers => true
    case Member(name, value, rest) => name !in seen && UniqueNames(value) && UniqueMembers(rest, seen + {name})
  }

  predicate UniqueItems(items: Items) {
    match items
    case NoItems => true
    case Item(value, rest) => UniqueNames(value) && UniqueItems(rest)
  }

  /* ---- The token machine ---- */

  datatype Frame = Frame(isObject: bool, expectKey: bool, keys: set<string>)

  datatype Next = Reject | Go(stack: seq<Frame>)

  predicate ExpectsKey(stack: seq<Frame>) {
    stack != [] && stack[|stack| - 1].isObject && stack[|stack| - 1].expectKey
  }

  function FinishValue(stack: seq<Frame>): seq<Frame> {
    if stack != [] && stack[|stack| - 1].isObject
    then stack[|stack| - 1 := stack[|stack| - 1].(expectKey := true)]
    else stack
  }

  function Step(stack: seq<Frame>, tok: Token): Next {
    if tok == Malformed then Reject
    else if ExpectsKey(stack) && tok != CloseObject then
      var top := stack[|stack| - 1];
      if !tok.Text? || tok.s in top.keys then Reject
      else Go(stack[|stack| - 1 := Frame(true, false, top.keys + {tok.s})])
    else
      match tok
      case OpenObject => Go(stack + [Frame(true, true, {})])
      case OpenArray => Go(stack + [Frame(false, false, {})])
      case CloseObject | CloseArray =>
        if stack == [] then Reject else Go(FinishValue(stack[..|stack| - 1]))
      case _ => Go(FinishValue(stack))
  }

  // Whether the whole stream is accepted from this stack.
  predicate Accepts(stack: seq<Frame>, toks: seq<Token>)
    decreases |toks|
  {
    toks == [] ||
    match Step(stack, toks[0])
    case Reject => false
    case Go(next) => Accepts(next, toks[1..])
  }

  // rejectDuplicateJSONKeys: one pass over the tokens.
  method RejectDuplicateKeys(toks: seq<Token>) returns (ok: bool)
    ensures ok == Accepts([], toks)
  {
    var stack: seq<Frame> := [];
    for i := 0 to |toks|
      invariant Accepts([], toks) == Accepts(stack, toks[i..])
    {
      var tok := toks[i];
      assert toks[i..][1..] == toks[i + 1..];
      if tok == Malformed {
        return false;
      }
      if |stack| > 0 {
        var top := stack[|stack| - 1];
        if top.isObject && top.expectKey && tok != CloseObject {
          if !tok.Text? {
            return false;
          }
          if tok.s in top.keys {
            return false;
          }
          stack := stack[|stack| - 1 := Frame(true, false, top.keys + {tok.s})];
          continue;
        }
      }
      match tok {
        case OpenObject =>
          stack := stack + [Frame(true, true, {})];
        case OpenArray =>
          stack := stack + [Frame(false, false, {})];
        case CloseObject | CloseArray =>
          if |stack| == 0 {
            return false;
          }
          stack := FinishValue(stack[..|stack| - 1]);
        case _ =>
          stack := FinishValue(stack);
      }
    }
    ok := true;
  }

  /* ---- The machine decides uniqueness ---- */

  lemma StepsThen(stack: seq<Frame>, tok: Token, rest: seq<Token>)
    ensures Accepts(stack, [tok] + rest) ==
            match Step(stack, tok) { case Reject => false case Go(next) => Accepts(next, rest) }
  {
    assert ([tok] + rest)[1..] == rest;
  }

  // Wherever a value may stand, its tokens are accepted exactly if it has unique names, and
  // they leave the stack as a finished value does.
  lemma {:induction false} ValueAccepted(j: Json, stack: seq<Frame>, rest: seq<Token>)
    requires !ExpectsKey(stack)
    ensures Accepts(stack, Tokens(j) + rest) == (UniqueNames(j) && Accepts(FinishValue(stack), rest))
  {
    match j
    case Object(members) =>
      var inner := MemberTokens(members) + ([CloseObject] + rest);
      assert Tokens(j) + rest == [OpenObject] + inner;
      StepsThen(stack, OpenObject, inner);
      MembersAccepted(members, stack, {}, rest);
    case Array(items) =>
      var inner := ItemTokens(items) + ([CloseArray] + rest);
      assert Tokens(j) + rest == [OpenArray] + inner;
      StepsThen(stack, OpenArray, inner);
      ItemsAccepted(items, stack, rest);
    case String(s) =>
      StepsThen(stack, Text(s), rest);
    case Other =>
      StepsThen(stack, Scalar, rest);
  }

  lemma {:induction false} MembersAccepted(m: Members, stack: seq<Frame>, seen: set<string>, rest: seq<Token>)
    ensures Accepts(stack + [Frame(true, true, seen)], MemberTokens(m) + ([CloseObject] + rest)) ==
            (UniqueMembers(m, seen) && Accepts(FinishValue(stack), rest))
  {
    var open := stack + [Frame(true, true, seen)];
    match m
    case NoMembers =>
      assert MemberTokens(m) + ([CloseObject] + rest) == [CloseObject] + rest;
      assert open[..|open| - 1] == stack;
      StepsThen(open, CloseObject, rest);
    case Member(name, value, more) =>
      var after := MemberTokens(more) + ([CloseObject] + rest);
      assert MemberTokens(m) + ([CloseObject] + rest) == [Text(name)] + (Tokens(value) + after);
      StepsThen(open, Text(name), Tokens(value) + after);
      if name !in seen {
        var named := stack + [Frame(true, false, seen + {name})];
        assert open[|open| - 1 := Frame(true, false, seen + {name})] == named;
        ValueAccepted(value, named, after);
        assert FinishValue(named) == stack + [Frame(true, true, seen + {name})];
        MembersAccepted(more, stack, seen + {name}, rest);
      }
  }

  lemma {:induction false} ItemsAccepted(items: Items, stack: seq<Frame>, rest: seq<Token>)
    ensures Accepts(stack + [Frame(false, false, {})], ItemTokens(items) + ([CloseArray] + rest)) ==
            (UniqueItems(items) && Accepts(FinishValue(stack), rest))
  {
    var open := stack + [Frame(false, false, {})];
    match items
    case NoItems =>
      assert ItemTokens(items) + ([CloseArray] + rest) == [CloseArray] + rest;
      assert open[..|open| - 1] == stack;
      StepsThen(open, CloseArray, rest);
    case Item(value, more) =>
      var after := ItemTokens(more) + ([CloseArray] + rest);
      assert ItemTokens(items) + ([CloseArray] + rest) == Tokens(value) + after;
      ValueAccepted(value, open, after);
      assert FinishValue(open) == open;
      ItemsAccepted(more, stack, rest);
  }

  // A stream of documents, as the decoder would read them one after the other.
  function Stream(docs: seq<Json>): seq<Token> {
    if docs == [] then [] else Tokens(docs[0]) + Stream(docs[1..])
  }

  // The check accepts a stream of documents if and only if no object in any of them repeats
  // a name; a decoding error anywhere after them refuses it.
  lemma {:induction false} DuplicateCheckIsExact(docs: seq<Json>, broken: bool)
    ensures Accepts([], Stream(docs) + if broken then [Malformed] else []) <==>
            !broken && forall d | d in docs :: UniqueNames(d)
  {
    var end := if broken then [Malformed] else [];
    if docs == [] {
      assert Stream(docs) + end == end;
    } else {
      assert Stream(docs) + end == Tokens(docs[0]) + (Stream(docs[1..]) + end);
      ValueAccepted(docs[0], [], Stream(docs[1..]) + end);
      DuplicateCheckIsExact(docs[1..], broken);
    }
  }
}
