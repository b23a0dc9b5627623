/**
 Amounts of satoshis as text (internal/tui/amount_input.go and internal/tui/helpers.go):
 three formatters written independently of each other, and the parser that reads them back,
 on 64-bit integers that wrap around.
 */
module SatsFormat {
  import opened Basics

  const MIN: int := -0x8000_0000_0000_0000
  const MAX: int := 0x7FFF_FFFF_FFFF_FFFF
  const TWO64: int := 0x1_0000_0000_0000_0000

  newtype int64 = x: int | MIN <= x <= MAX

  // Two's-complement wrap-around of a result.
  function Wrap(x: int): (r: int64)
    ensures MIN <= x <= MAX ==> r as int == x
  {
    ((x - MIN) % TWO64 + MIN) as int64
  }

  /* ---- Decimals ---- */

  predicate IsDigit(c: char) {
    '0' <= c <= '9'
  }

  predicate Digits(s: string) {
    forall c | c in s :: IsDigit(c)
  }

  function DigitOf(k: nat): char
    requires k < 10
  {
    '0' + k as char
  }

  function Value(c: char): nat
    requires IsDigit(c)
  {
    (c - '0') as nat
  }

  function Number(d: string): nat
    requires Digits(d)
  {
    if d == "" then 0 else 10 * Number(d[..|d| - 1]) + Value(d[|d| - 1])
  }

  // Printf("%d") of a nonnegative number.
  function Decimal(n: nat): string {
    if n < 10 then [DigitOf(n)] else Decimal(n / 10) + [DigitOf(n % 10)]
  }

  // Printf("%d").
  function SignedDecimal(n: int64): string {
    if n < 0 then "-" + Decimal(-(n as int)) else Decimal(n as int)
  }

  lemma {:induction false} DecimalReads(n: nat)
    ensures Digits(Decimal(n)) && |Decimal(n)| > 0 && Number(Decimal(n)) == n
    ensures n > 0 ==> Decimal(n)[0] != '0'
  {
    if n >= 10 {
      DecimalReads(n / 10);
      assert Decimal(n)[..|Decimal(n)| - 1] == Decimal(n / 10);
    } else {
      assert Decimal(n)[..0] == "";
    }
  }

  // Reading on never makes the number smaller: no prefix overflows if the whole does not.
  lemma {:induction false} PrefixNotLarger(d: string, k: nat)
    requires Digits(d) && k <= |d|
    ensures Number(d[..k]) <= Number(d)
    decreases |d|
  {
    if k == |d| {
      assert d[..k] == d;
    } else {
      PrefixNotLarger(d[..|d| - 1], k);
      assert d[..|d| - 1][..k] == d[..k];
    }
  }

  function Pow10(k: nat): nat {
    if k == 0 then 1 else 10 * Pow10(k - 1)
  }

  lemma {:induction false} NumberBound(d: string)
    requires Digits(d)
    ensures Number(d) < Pow10(|d|)
  {
    if d != "" {
      var init := d[..|d| - 1];
      NumberBound(init);
      assert Value(d[|d| - 1]) <= 9 && Pow10(|d|) == 10 * Pow10(|init|);
    }
  }

  /* ---- Grouping ---- */

  // Digits with a comma before every full group of three.
  function Commas(d: string): string {
    if |d| <= 3 then d else Commas(d[..|d| - 3]) + "," + d[|d| - 3..]
  }

  // The string without its commas.
  function Strip(s: string): (r: string)
    ensures ',' !in r
    ensures (forall c | c in s :: IsDigit(c) || c == ',') ==> Digits(r)
  {
    if s == "" then "" else
    Strip(s[..|s| - 1]) + if s[|s| - 1] == ',' then "" else [s[|s| - 1]]
  }

  // Correct grouping by position alone: counted from the right, every fourth character is a
  // comma and no other is.
  predicate Grouped(s: string) {
    s != "" && s[0] != ',' && forall i | 0 <= i < |s| :: if (|s| - i) % 4 == 0 then s[i] == ',' else IsDigit(s[i])
  }

  function GroupedLength(n: nat): nat {
    if n == 0 then 0 else n + (n - 1) / 3
  }

  lemma {:induction false} StripConcat(a: string, b: string)
    ensures Strip(a + b) == Strip(a) + Strip(b)
  {
    if b == "" {
      assert a + b == a;
    } else {
      var init, last := b[..|b| - 1], b[|b| - 1];
      assert b == init + [last];
      StripConcat(a, init);
      StripLast(init, last);
      StripLast(a + init, last);
      Assoc(a, init, [last]);
      Assoc(Strip(a), Strip(init), Strip([last]));
    }
  }

  lemma Assoc(a: string, b: string, c: string)
    ensures (a + b) + c == a + (b + c)
  {
  }

  lemma StripLast(s: string, c: char)
    ensures Strip(s + [c]) == Strip(s) + Strip([c])
    ensures Strip([c]) == if c == ',' then "" else [c]
  {
    assert (s + [c])[..|s|] == s && [c][..0] == "" && Strip("") == "";
    assert "" + [c] == [c];
  }

  lemma {:induction false} StripKeeps(s: string)
    requires ',' !in s
    ensures Strip(s) == s
  {
    if s != "" {
      StripKeeps(s[..|s| - 1]);
    }
  }

  // One group more.
  lemma CommasStep(head: string, group: string)
    requires head != "" && |group| == 3
    ensures Commas(head + group) == Commas(head) + ("," + group)
  {
    var d := head + group;
    assert d[..|d| - 3] == head && d[|d| - 3..] == group;
  }

  lemma StripGroup(head: string, group: string)
    requires ',' !in group
    ensures Strip(head + ("," + group)) == Strip(head) + group
  {
    assert Strip(",") == Strip("") == "";
    StripConcat(head, "," + group);
    StripConcat(",", group);
    StripKeeps(group);
  }

  lemma {:induction false} CommasStrip(d: string)
    requires ',' !in d
    ensures Strip(Commas(d)) == d && |Commas(d)| == GroupedLength(|d|)
  {
    if |d| <= 3 {
      StripKeeps(d);
    } else {
      var head, group := d[..|d| - 3], d[|d| - 3..];
      assert d == head + group;
      CommasStep(head, group);
      CommasStrip(head);
      StripGroup(Commas(head), group);
    }
  }

  lemma {:induction false} CommasGrouped(d: string)
    requires Digits(d) && d != ""
    ensures Grouped(Commas(d)) && Commas(d)[0] == d[0]
  {
    if |d| > 3 {
      var head, group := d[..|d| - 3], d[|d| - 3..];
      assert d == head + group;
      CommasStep(head, group);
      CommasGrouped(head);
      GroupedGrows(Commas(head), group);
    } else {
      assert Commas(d) == d;
      assert forall i | 0 <= i < |d| :: IsDigit(d[i]);
    }
  }

  lemma GroupedGrows(t: string, group: string)
    requires Grouped(t) && Digits(group) && |group| == 3
    ensures Grouped(t + ("," + group))
  {
    var s := t + ("," + group);
    forall i | 0 <= i < |s| ensures if (|s| - i) % 4 == 0 then s[i] == ',' else IsDigit(s[i]) {
      if i < |t| {
        assert s[i] == t[i] && (|s| - i) % 4 == (|t| - i) % 4;
      } else if i > |t| {
        assert s[i] == group[i - |t| - 1];
      }
    }
  }

  lemma GroupedShrinks(s: string)
    requires Grouped(s) && |s| >= 4
    ensures |s| > 4 && Grouped(s[..|s| - 4]) && s[|s| - 4] == ',' && Digits(s[|s| - 3..])
  {
    var n := |s| - 4;
    assert (|s| - 0) % 4 != 0;
    assert (|s| - n) % 4 == 0;
    assert (|s| - (n + 1)) % 4 == 3 && (|s| - (n + 2)) % 4 == 2 && (|s| - (n + 3)) % 4 == 1;
    assert s[n + 1..] == [s[n + 1], s[n + 2], s[n + 3]];
    var head := s[..n];
    forall i | 0 <= i < |head| ensures if (|head| - i) % 4 == 0 then head[i] == ',' else IsDigit(head[i]) {
      var m := |head| - i;
      assert |s| - i == m + 4 && (m + 4) % 4 == m % 4;
      assert head[i] == s[i];
    }
  }

  // The only correct grouping of a number is the one the formatters produce.
  lemma {:induction false} GroupedUnique(s: string)
    requires Grouped(s)
    ensures s == Commas(Strip(s)) && Digits(Strip(s)) && Strip(s) != ""
  {
    if |s| < 4 {
      assert ',' !in s;
      StripKeeps(s);
    } else {
      GroupedShrinks(s);
      var head, group := s[..|s| - 4], s[|s| - 3..];
      assert s == head + ("," + group);
      GroupedUnique(head);
      StripGroup(head, group);
      CommasStep(Strip(head), group);
    }
  }

  // A digit put in front brings a comma exactly if full groups follow.
  lemma {:induction false} CommasPrependFull(c: char, s: string)
    requires |s| > 0 && |s| % 3 == 0
    ensures Commas([c] + s) == [c] + ("," + Commas(s))
  {
    if |s| == 3 {
      CommasStep([c], s);
    } else {
      var head, group := s[..|s| - 3], s[|s| - 3..];
      assert s == head + group;
      CommasPrependFull(c, head);
      CommasSteps(c, head, group);
      Assoc([c], "," + Commas(head), "," + group);
      Assoc(",", Commas(head), "," + group);
    }
  }

  lemma {:induction false} CommasPrependPart(c: char, s: string)
    requires |s| == 0 || |s| % 3 != 0
    ensures Commas([c] + s) == [c] + Commas(s)
  {
    if |s| > 3 {
      var head, group := s[..|s| - 3], s[|s| - 3..];
      assert s == head + group;
      CommasPrependPart(c, head);
      CommasSteps(c, head, group);
      Assoc([c], Commas(head), "," + group);
    }
  }

  lemma CommasSteps(c: char, head: string, group: string)
    requires head != "" && |group| == 3
    ensures Commas([c] + (head + group)) == Commas([c] + head) + ("," + group)
    ensures Commas(head + group) == Commas(head) + ("," + group)
  {
    Assoc([c], head, group);
    CommasStep([c] + head, group);
    CommasStep(head, group);
  }

  // Grouping from the left, one character at a time, when `rest` more are to come.
  function LeftGrouped(s: string, rest: nat): string {
    if s == "" then "" else
    LeftGrouped(s[..|s| - 1], rest + 1) + (if |s| > 1 && (rest + 1) % 3 == 0 then "," else "") + [s[|s| - 1]]
  }

  lemma {:induction false} LeftGroupedPeriod(s: string, rest: nat)
    ensures LeftGrouped(s, rest + 3) == LeftGrouped(s, rest)
  {
    if s != "" {
      LeftGroupedPeriod(s[..|s| - 1], rest + 1);
    }
  }

  lemma LeftGroupedPlain(s: string, c: char, rest: nat)
    requires s == "" || (rest + 1) % 3 != 0
    ensures LeftGrouped(s + [c], rest) == LeftGrouped(s, rest + 1) + [c]
  {
    assert (s + [c])[..|s|] == s;
  }

  lemma LeftGroupedComma(s: string, c: char, rest: nat)
    requires s != "" && (rest + 1) % 3 == 0
    ensures LeftGrouped(s + [c], rest) == LeftGrouped(s, rest + 1) + "," + [c]
  {
    assert (s + [c])[..|s|] == s;
  }

  lemma LeftGroupedGroup(head: string, a: char, b: char, c: char)
    requires head != ""
    ensures LeftGrouped(head + [a, b, c], 0) == LeftGrouped(head, 3) + ("," + [a, b, c])
  {
    assert head + [a, b, c] == (head + [a] + [b]) + [c];
    LeftGroupedPlain(head + [a] + [b], c, 0);
    LeftGroupedPlain(head + [a], b, 1);
    LeftGroupedComma(head, a, 2);
  }

  lemma LeftGroupedOne(a: char, rest: nat)
    ensures LeftGrouped([a], rest) == [a]
  {
    LeftGroupedPlain("", a, rest);
    assert "" + [a] == [a];
  }

  lemma LeftGroupedTwo(a: char, b: char, rest: nat)
    requires (rest + 1) % 3 != 0
    ensures LeftGrouped([a] + [b], rest) == [a] + [b]
  {
    LeftGroupedOne(a, rest + 1);
    LeftGroupedPlain([a], b, rest);
  }

  lemma LeftGroupedThree(a: char, b: char, c: char)
    ensures LeftGrouped([a] + [b] + [c], 0) == [a] + [b] + [c]
  {
    LeftGroupedTwo(a, b, 1);
    LeftGroupedPlain([a] + [b], c, 0);
  }

  lemma LeftGroupedShort(s: string)
    requires |s| <= 3
    ensures LeftGrouped(s, 0) == s
  {
    if |s| == 1 {
      assert s == [s[0]];
      LeftGroupedOne(s[0], 0);
    } else if |s| == 2 {
      assert s == [s[0]] + [s[1]];
      LeftGroupedTwo(s[0], s[1], 0);
    } else if |s| == 3 {
      assert s == [s[0]] + [s[1]] + [s[2]];
      LeftGroupedThree(s[0], s[1], s[2]);
    }
  }

  lemma {:induction false} LeftGroupedIsCommas(s: string)
    ensures LeftGrouped(s, 0) == Commas(s)
  {
    if |s| <= 3 {
      LeftGroupedShort(s);
    } else {
      var n := |s| - 3;
      var head := s[..n];
      assert s == head + [s[n], s[n + 1], s[n + 2]];
      LeftGroupedGroup(head, s[n], s[n + 1], s[n + 2]);
      LeftGroupedPeriod(head, 0);
      LeftGroupedIsCommas(head);
      CommasStep(head, [s[n], s[n + 1], s[n + 2]]);
    }
  }

  /* ---- The three formatters ---- */

  // formatDigitsWithCommas: from the left, group by group.
  method FormatDigitsWithCommas(digits: string) returns (r: string)
    ensures r == Commas(digits)
  {
    if |digits| <= 3 {
      return digits;
    }
    var head := |digits| % 3;
    if head == 0 {
      head := 3;
    }
    r := digits[..head];
    var i := head;
    while i < |digits|
      invariant 0 < i <= |digits| && (|digits| - i) % 3 == 0
      invariant r == Commas(digits[..i])
    {
      CommasStep(digits[..i], digits[i..i + 3]);
      assert digits[..i + 3] == digits[..i] + digits[i..i + 3];
      r := r + "," + digits[i..i + 3];
      i := i + 3;
    }
    assert digits[..i] == digits;
  }

  // formatSats: from the left, character by character. A negative amount stays ungrouped.
  method FormatSats(sats: int64) returns (r: string)
    ensures r == if sats < 0 then SignedDecimal(sats) else Commas(Decimal(sats as int))
  {
    if sats < 0 {
      return SignedDecimal(sats);
    }
    var s := Decimal(sats as int);
    if |s| <= 3 {
      return s;
    }
    r := "";
    for i := 0 to |s|
      invariant r == LeftGrouped(s[..i], |s| - i)
    {
      assert s[..i + 1][..i] == s[..i];
      if i > 0 && (|s| - i) % 3 == 0 {
        r := r + ",";
      }
      r := r + [s[i]];
    }
    assert s[..|s|] == s;
    LeftGroupedIsCommas(s);
  }

  function Reversed(s: string): string {
    if s == "" then "" else Reversed(s[1..]) + [s[0]]
  }

  lemma {:induction false} ReversedAt(s: string, k: nat)
    requires k < |s|
    ensures |Reversed(s)| == |s| && Reversed(s)[k] == s[|s| - 1 - k]
  {
    if |s| > 1 {
      ReversedAt(s[1..], if k < |s| - 1 then k else 0);
    }
  }

  lemma {:induction false} ReversedTwice(s: string)
    ensures |Reversed(s)| == |s| && Reversed(Reversed(s)) == s
  {
    forall k | 0 <= k < |s| ensures |Reversed(s)| == |s| && Reversed(s)[k] == s[|s| - 1 - k] {
      ReversedAt(s, k);
    }
    if s == "" { return; }
    forall k | 0 <= k < |s| ensures |Reversed(Reversed(s))| == |s| && Reversed(Reversed(s))[k] == s[k] {
      ReversedAt(s, 0);
      ReversedAt(Reversed(s), k);
    }
  }

  // The swapping loop of formatWithCommas.
  method Reverse(s: string) returns (buf: string)
    ensures buf == Reversed(s)
  {
    buf := s;
    var i, j := 0, |buf| - 1;
    while i < j
      invariant |buf| == |s| && 0 <= i && j == |s| - 1 - i && i <= j + 2
      invariant forall k | 0 <= k < i :: buf[k] == s[|s| - 1 - k]
      invariant forall k | j < k < |s| :: buf[k] == s[|s| - 1 - k]
      invariant forall k | i <= k <= j :: buf[k] == s[k]
    {
      var x, y := buf[i], buf[j];
      buf := buf[i := y][j := x];
      i, j := i + 1, j - 1;
    }
    ReversedTwice(s);
    forall k | 0 <= k < |s| ensures buf[k] == Reversed(s)[k] {
      assert buf[k] == s[|s| - 1 - k];
      ReversedAt(s, k);
    }
    assert buf == Reversed(s);
  }

  // The least significant of the digits left is the next to be grouped.
  lemma PeelDigit(all: string, k: nat, m: nat)
    requires m > 0 && k <= |all| && all[..|all| - k] == Decimal(m)
    ensures k < |all| && all[|all| - k - 1] == DigitOf(m % 10)
    ensures if m >= 10 then all[..|all| - (k + 1)] == Decimal(m / 10) else k + 1 == |all|
    ensures Reversed(Commas(all[|all| - (k + 1)..])) ==
            Reversed(Commas(all[|all| - k..])) + (if k > 0 && k % 3 == 0 then "," else "") + [DigitOf(m % 10)]
  {
    var tail, c := all[|all| - k..], DigitOf(m % 10);
    assert Decimal(m)[|Decimal(m)| - 1] == c;
    assert all[|all| - (k + 1)..] == [c] + tail;
    ReversedCommas(c, tail);
    if m >= 10 {
      assert all[..|all| - (k + 1)] == Decimal(m)[..|Decimal(m)| - 1] == Decimal(m / 10);
    }
  }

  lemma ReversedCommas(c: char, tail: string)
    ensures Reversed(Commas([c] + tail)) ==
            Reversed(Commas(tail)) + (if |tail| > 0 && |tail| % 3 == 0 then "," else "") + [c]
  {
    var t := Commas(tail);
    if |tail| > 0 && |tail| % 3 == 0 {
      CommasPrependFull(c, tail);
      ReversedPrepend(c, "," + t);
      ReversedPrepend(',', t);
    } else {
      CommasPrependPart(c, tail);
      ReversedPrepend(c, t);
      assert Reversed(t) + "" == Reversed(t);
    }
  }

  lemma ReversedPrepend(c: char, s: string)
    ensures Reversed([c] + s) == Reversed(s) + [c]
  {
    assert ([c] + s)[1..] == s;
  }

  // The digit loop of formatWithCommas, least significant first.
  method GroupBackwards(n: int64) returns (buf: string)
    ensures n > 0 ==> buf == Reversed(Commas(Decimal(n as int)))
    ensures n <= 0 ==> buf == ""
  {
    ghost var all := if n > 0 then Decimal(n as int) else "";
    var m := n;
    buf := "";
    var digits := 0;
    while m > 0
      invariant digits <= |all|
      invariant if m > 0 then all[..|all| - digits] == Decimal(m as int) else digits == |all|
      invariant buf == Reversed(Commas(all[|all| - digits..]))
      decreases m
    {
      var c := DigitOf((m % 10) as int);
      PeelDigit(all, digits, m as int);
      if digits > 0 && digits % 3 == 0 {
        buf := buf + ",";
      }
      buf := buf + [c];
      m := m / 10;
      digits := digits + 1;
    }
    assert all[|all| - digits..] == all;
  }

  // formatWithCommas. Negating the smallest number changes nothing, so its digits are lost.
  method FormatWithCommas(n: int64) returns (r: string)
    ensures n >= 0 ==> r == Commas(Decimal(n as int))
    ensures MIN < n as int < 0 ==> r == "-" + Commas(Decimal(-(n as int)))
    ensures n as int == MIN ==> r == "-"
  {
    if n == 0 {
      return "0";
    }
    var neg := n < 0;
    var m := n;
    if neg {
      m := Wrap(-(n as int));
    }
    var buf := GroupBackwards(m);
    buf := Reverse(buf);
    if m > 0 {
      ReversedTwice(Commas(Decimal(m as int)));
    }
    r := if neg then "-" + buf else buf;
  }

  /* ---- The parser ---- */

  // strings.TrimSpace.
  function TrimSpace(s: string): string {
    if s == "" then ""
    else if IsSpace(s[0]) then TrimSpace(s[1..])
    else if IsSpace(s[|s| - 1]) then TrimSpace(s[..|s| - 1])
    else s
  }

  // One more decimal place on a wrapped accumulator is one more place on the true one.
  lemma WrapStep(x: int, c: int)
    ensures Wrap(Wrap(x) as int * 10 + c) == Wrap(x * 10 + c)
  {
    var q := (x - MIN) / TWO64;
    assert Wrap(x) as int == x - q * TWO64;
    WrapPeriod(x * 10 + c, -10 * q);
  }

  lemma WrapPeriod(x: int, q: int)
    ensures Wrap(x + q * TWO64) == Wrap(x)
  {
    var a := x - MIN;
    var r, k := a % TWO64, a / TWO64;
    assert a + q * TWO64 == (k + q) * TWO64 + r;
  }

  // parseSats: nothing but commas, digits and surrounding space is a number; the rest is 0.
  // The accumulator wraps around.
  method ParseSats(val: string) returns (n: int64)
    ensures var t := TrimSpace(Strip(val));
            n == if Digits(t) then Wrap(Number(t)) else 0
  {
    var t := TrimSpace(Strip(val));
    if t == "" {
      return 0;
    }
    n := 0;
    for i := 0 to |t|
      invariant Digits(t[..i]) && n == Wrap(Number(t[..i]))
    {
      var c := t[i];
      if c < '0' || c > '9' {
        assert c in t && !IsDigit(c);
        return 0;
      }
      assert t[..i + 1][..i] == t[..i];
      WrapStep(Number(t[..i]), Value(c));
      n := Wrap(n as int * 10 + Value(c));
    }
    assert t[..|t|] == t;
  }

  // The parser returns the number that was written exactly if it fits.
  lemma ParsedExactly(d: string)
    requires Digits(d)
    ensures Wrap(Number(d)) as int == Number(d) <==> Number(d) <= MAX
    ensures Number(d) <= MAX ==> forall k | 0 <= k <= |d| :: Number(d[..k]) <= MAX
  {
    forall k | 0 <= k <= |d| ensures Number(d[..k]) <= Number(d) {
      PrefixNotLarger(d, k);
    }
  }

  lemma {:induction false} DigitsTrim(d: string)
    requires Digits(d)
    ensures TrimSpace(d) == d
  {
    if d != "" {
      assert IsDigit(d[0]) && IsDigit(d[|d| - 1]);
    }
  }

  // For a nonnegative amount the three formatters give one text, and it parses back.
  method FormattersAgree(n: int64) returns (a: string, b: string, c: string, back: int64)
    requires n >= 0
    ensures a == b == c && Grouped(a) && back == n
    ensures forall k | 0 <= k <= |Strip(a)| :: Digits(Strip(a)[..k]) && Number(Strip(a)[..k]) <= MAX
  {
    a := FormatWithCommas(n);
    b := FormatSats(n);
    c := FormatDigitsWithCommas(Decimal(n as int));
    var d := Decimal(n as int);
    DecimalReads(n as int);
    CommasGrouped(d);
    CommasStrip(d);
    DigitsTrim(d);
    ParsedExactly(d);
    back := ParseSats(a);
  }

  lemma {:induction false} DecimalLength(n: nat)
    ensures |Decimal(n)| <= 3 <==> n < 1000
  {
    if n >= 1000 {
      assert n / 10 >= 100 && n / 10 / 10 >= 10;
      assert |Decimal(n / 10 / 10)| >= 2;
    } else if n >= 100 {
      assert n / 10 / 10 < 10 && n / 10 >= 10;
      assert |Decimal(n / 10 / 10)| == 1 && |Decimal(n / 10)| == 2;
    } else if n >= 10 {
      assert |Decimal(n / 10)| == 1;
    }
  }

  // For a negative one they agree exactly down to -999, where no comma is due.
  method FormattersOnNegatives(n: int64) returns (a: string, b: string)
    requires n < 0
    ensures a == b <==> n >= -999
  {
    a := FormatWithCommas(n);
    b := FormatSats(n);
    var d := Decimal(-(n as int));
    DecimalReads(-(n as int));
    DecimalLength(-(n as int));
    CommasStrip(d);
    if n as int != MIN {
      assert a[1..] == Commas(d) && b[1..] == d;
      assert n < -999 ==> |Commas(d)| > |d|;
    } else {
      assert |b| > 1;
    }
  }
}
