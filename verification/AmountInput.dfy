/**
 The satoshi amount field (internal/tui/amount_input.go): a comma-formatted edit buffer that
 every keystroke turns into plain digits, edits there, and formats again, with the cursor
 carried along.
 */
module AmountInput {
  import opened SatsFormat

  /* ---- Digit space ---- */

  // An edit of plain digits: what was typed, pasted or deleted.
  datatype Mutation = InsertDigit(d: char) | InsertString(s: string) | DeleteLeft

  predicate Allowed(mut: Mutation) {
    match mut
    case InsertDigit(d) => IsDigit(d)
    case InsertString(s) => Digits(s)
    case DeleteLeft => true
  }

  // insertDigit, insertString, deleteLeft.
  function Apply(mut: Mutation, raw: string, pos: nat): (r: (string, nat))
    requires pos <= |raw|
    ensures r.1 <= |r.0|
    ensures Digits(raw) && Allowed(mut) ==> Digits(r.0)
  {
    match mut
    case InsertDigit(d) => (raw[..pos] + [d] + raw[pos..], pos + 1)
    case InsertString(s) => (raw[..pos] + s + raw[pos..], pos + |s|)
    case DeleteLeft => if pos == 0 then (raw, 0) else (raw[..pos - 1] + raw[pos..], pos - 1)
  }

  predicate Zeros(s: string) {
    forall c | c in s :: c == '0'
  }

  // How many zeros the string starts with.
  function LeadingZeros(s: string): (n: nat)
    ensures n <= |s| && (forall i | 0 <= i < n :: s[i] == '0') && (n < |s| ==> s[n] != '0')
  {
    if s == "" || s[0] != '0' then 0 else 1 + LeadingZeros(s[1..])
  }

  // The digits that count: all of them while no value is forming.
  function Significant(s: string): string {
    if Zeros(s) then s else s[LeadingZeros(s)..]
  }

  // Where a position lands when the leading zeros collapse.
  function Collapsed(s: string, pos: nat): nat {
    if Zeros(s) then pos else if pos >= LeadingZeros(s) then pos - LeadingZeros(s) else 0
  }

  // What the field shows for its digits.
  function Display(d: string): string {
    if Zeros(d) then d else Commas(d)
  }

  // The field shows zeros as typed, or one correctly grouped number without leading zeros.
  predicate Canonical(s: string) {
    Zeros(s) || (Grouped(s) && s[0] != '0')
  }

  // The digits before the cursor.
  function DigitsBefore(s: string, pos: nat): (n: nat)
    requires pos <= |s|
    ensures n <= |Strip(s)|
  {
    StripConcat(s[..pos], s[pos..]);
    assert s[..pos] + s[pos..] == s;
    |Strip(s[..pos])|
  }

  // The longest prefix that fits a limit on its grouped form; 0 is no limit.
  predicate LongestFit(kept: string, all: string, limit: nat) {
    && kept <= all
    && (limit > 0 ==> GroupedLength(|kept|) <= limit)
    && (kept != all ==> limit > 0 && GroupedLength(|kept| + 1) > limit)
  }

  // What one edit makes of the digits and of the cursor among them: the longest prefix of
  // the significant edited digits that fits, and the place the edit left the cursor at.
  predicate Edited(raw: string, pos: nat, mut: Mutation, limit: nat, kept: string, at: nat)
    requires pos <= |raw|
  {
    var (edited, target) := Apply(mut, raw, pos);
    && LongestFit(kept, Significant(edited), limit)
    && at == if Collapsed(edited, target) <= |kept| then Collapsed(edited, target) else |kept|
  }

  lemma DisplayIsCanonical(d: string)
    requires Digits(d) && (Zeros(d) || d[0] != '0')
    ensures Canonical(Display(d)) && Strip(Display(d)) == d
  {
    if Zeros(d) {
      assert ',' !in d;
      StripKeeps(d);
    } else {
      CommasGrouped(d);
      CommasStrip(d);
    }
  }

  // A canonical text is the display of its digits: the buffer holds no more than they do.
  lemma CanonicalIsDisplay(s: string)
    requires Canonical(s)
    ensures Digits(Strip(s)) && s == Display(Strip(s))
  {
    if Zeros(s) {
      assert ',' !in s;
      StripKeeps(s);
    } else {
      GroupedUnique(s);
      CommasGrouped(Strip(s));
      assert Strip(s)[0] == s[0] && s[0] in s;
      assert Strip(s)[0] in Strip(s);
    }
  }

  // Sixteen characters hold exactly twelve digits, ten hold eight.
  lemma Capacity(d: string)
    requires ',' !in d
    ensures |Commas(d)| <= 16 <==> |d| <= 12
    ensures |Commas(d)| <= 10 <==> |d| <= 8
  {
    CommasStrip(d);
  }

  /* ---- Space translation ---- */

  // toDigitSpace.
  method ToDigitSpace(val: string, displayPos: nat) returns (raw: string, digitPos: nat)
    requires displayPos <= |val|
    ensures raw == Strip(val) && digitPos == DigitsBefore(val, displayPos) <= |raw|
  {
    raw, digitPos := "", 0;
    for i := 0 to |val|
      invariant raw == Strip(val[..i])
      invariant digitPos == |Strip(val[..if i < displayPos then i else displayPos])| <= |raw|
    {
      var c := val[i];
      assert val[..i + 1][..i] == val[..i];
      if c != ',' {
        if i < displayPos {
          digitPos := digitPos + 1;
        }
        raw := raw + [c];
      }
    }
    assert val[..|val|] == val;
  }

  // fromDigitSpace: right after the digit, or at the end if there are not so many.
  method FromDigitSpace(formatted: string, digitPos: int) returns (pos: nat)
    ensures pos <= |formatted|
    ensures digitPos <= 0 ==> pos == 0
    ensures 0 < digitPos <= |Strip(formatted)| ==>
      pos > 0 && formatted[pos - 1] != ',' && DigitsBefore(formatted, pos) == digitPos
    ensures digitPos > |Strip(formatted)| ==> pos == |formatted|
  {
    if digitPos <= 0 {
      return 0;
    }
    var count := 0;
    for i := 0 to |formatted|
      invariant count == |Strip(formatted[..i])| < digitPos
    {
      assert formatted[..i + 1][..i] == formatted[..i];
      if formatted[i] != ',' {
        count := count + 1;
        if count == digitPos {
          assert DigitsBefore(formatted, i + 1) == digitPos;
          return i + 1;
        }
      }
    }
    assert formatted[..|formatted|] == formatted;
    pos := |formatted|;
  }

  method TrimLeadingZeros(s: string) returns (t: string, n: nat)
    ensures n == LeadingZeros(s) && t == s[n..]
  {
    n := 0;
    while n < |s| && s[n] == '0'
      invariant n <= |s| && LeadingZeros(s) == n + LeadingZeros(s[n..])
    {
      assert s[n..][1..] == s[n + 1..];
      n := n + 1;
    }
    t := s[n..];
  }

  method HasNonZeroDigit(s: string) returns (found: bool)
    requires Digits(s)
    ensures found <==> !Zeros(s)
  {
    for i := 0 to |s|
      invariant forall k | 0 <= k < i :: s[k] == '0'
    {
      if '1' <= s[i] <= '9' {
        assert s[i] in s;
        return true;
      }
      assert IsDigit(s[i]);
    }
    found := false;
  }

  function OnlyDigits(s: string): (r: string)
    ensures Digits(r) && (Digits(s) ==> r == s)
  {
    if s == "" then "" else
    OnlyDigits(s[..|s| - 1]) + if IsDigit(s[|s| - 1]) then [s[|s| - 1]] else ""
  }

  method FilterDigits(s: string) returns (r: string)
    ensures r == OnlyDigits(s)
  {
    r := "";
    for i := 0 to |s|
      invariant r == OnlyDigits(s[..i])
    {
      OnlyDigitsLast(s[..i], s[i]);
      assert s[..i + 1] == s[..i] + [s[i]];
      if '0' <= s[i] <= '9' {
        r := r + [s[i]];
      }
    }
    assert s[..|s|] == s;
  }

  lemma OnlyDigitsLast(s: string, c: char)
    ensures OnlyDigits(s + [c]) == if IsDigit(c) then OnlyDigits(s) + [c] else OnlyDigits(s)
  {
    assert (s + [c])[..|s|] == s;
  }

  /* ---- The field ---- */

  lemma SignificantStart(s: string)
    requires Digits(s)
    ensures Digits(Significant(s)) && (Zeros(Significant(s)) <==> Zeros(s))
    ensures !Zeros(s) ==> Significant(s)[0] != '0'
  {
    var n := LeadingZeros(s);
    if !Zeros(s) {
      assert Significant(s)[0] == s[n] && s[n] in Significant(s);
    }
  }

  lemma PrefixDisplays(d: string, kept: string)
    requires Digits(d) && (Zeros(d) || d[0] != '0') && kept <= d
    ensures Digits(kept) && (Zeros(kept) || kept[0] != '0')
  {
    assert forall c | c in kept :: c in d;
  }

  // Shortens the digits until their grouped form fits.
  method Truncate(digits: string, pos: nat, limit: nat) returns (kept: string, newPos: nat)
    requires ',' !in digits && pos <= |digits|
    ensures LongestFit(kept, digits, limit) && newPos == if pos <= |kept| then pos else |kept|
  {
    kept, newPos := digits, pos;
    if limit > 0 {
      CommasStrip(digits);
      while GroupedLength(|kept|) > limit && |kept| > 0
        invariant kept <= digits && newPos == if pos <= |kept| then pos else |kept|
        invariant kept != digits ==> GroupedLength(|kept| + 1) > limit
      {
        kept := kept[..|kept| - 1];
        if newPos > |kept| {
          newPos := |kept|;
        }
      }
    }
  }

  // The part of mutate after the edit: collapse, fit, format.
  method Normalize(newRaw: string, pos: nat) returns (trimmed: string, newPos: nat)
    requires Digits(newRaw) && pos <= |newRaw|
    ensures trimmed == Significant(newRaw) && newPos == Collapsed(newRaw, pos) <= |trimmed|
  {
    trimmed, newPos := newRaw, pos;
    var nonZero := HasNonZeroDigit(newRaw);
    if nonZero {
      var collapsed;
      trimmed, collapsed := TrimLeadingZeros(newRaw);
      newPos := if newPos >= collapsed then newPos - collapsed else 0;
    }
  }

  // Skips the commas while no value is forming.
  method Format(kept: string, limit: nat) returns (formatted: string)
    requires Digits(kept) && (Zeros(kept) || kept[0] != '0')
    requires limit > 0 ==> GroupedLength(|kept|) <= limit
    ensures formatted == Display(kept) && Canonical(formatted) && Strip(formatted) == kept
    ensures limit > 0 ==> |formatted| <= limit
    ensures forall c | c in formatted :: IsDigit(c) || c == ','
  {
    formatted := kept;
    var nonZero := HasNonZeroDigit(kept);
    if nonZero {
      formatted := FormatDigitsWithCommas(kept);
    }
    DisplayIsCanonical(kept);
    CommasStrip(kept);
  }

  // Collapse, fit and format what an edit left.
  method Reshape(edited: string, pos: nat, limit: nat) returns (formatted: string, at: nat)
    requires Digits(edited) && pos <= |edited|
    ensures Canonical(formatted) && forall c | c in formatted :: IsDigit(c) || c == ','
    ensures limit > 0 ==> GroupedLength(|Strip(formatted)|) <= limit
    ensures LongestFit(Strip(formatted), Significant(edited), limit)
    ensures at == if Collapsed(edited, pos) <= |Strip(formatted)| then Collapsed(edited, pos) else |Strip(formatted)|
  {
    SignificantStart(edited);
    var trimmed, kept;
    trimmed, at := Normalize(edited, pos);
    kept, at := Truncate(trimmed, at, limit);
    PrefixDisplays(trimmed, kept);
    formatted := Format(kept, limit);
  }

  class AmountField {
    var value: string      // the text shown
    var cursor: nat
    const charLimit: nat   // 0 is no limit

    // The widget never lets the cursor past its text, and every write is digits and commas.
    predicate Valid()
      reads this
    {
      cursor <= |value| && forall c | c in value :: IsDigit(c) || c == ','
    }

    // The digits fit with all their commas, even where none are shown.
    predicate Fits()
      reads this
    {
      charLimit > 0 ==> GroupedLength(|Strip(value)|) <= charLimit
    }

    constructor (charLimit: nat)
      ensures Valid() && Fits() && value == "" && Canonical(value) && this.charLimit == charLimit
    {
      value, cursor := "", 0;
      this.charLimit := charLimit;
    }

    // mutate: to digits, edit, back to text.
    method Mutate(mut: Mutation)
      requires Valid() && Allowed(mut)
      modifies this
      ensures Valid() && Canonical(value) && Fits()
      ensures Edited(Strip(old(value)), DigitsBefore(old(value), old(cursor)), mut, charLimit,
                     Strip(value), DigitsBefore(value, cursor))
      ensures cursor > 0 ==> value[cursor - 1] != ','
    {
      var raw, digitPos := ToDigitSpace(value, cursor);
      var (newRaw, newPos) := Apply(mut, raw, digitPos);
      var formatted;
      formatted, newPos := Reshape(newRaw, newPos, charLimit);
      value := formatted;
      cursor := FromDigitSpace(formatted, newPos);
      if cursor == 0 {
        assert formatted[..0] == "";
      }
    }

    // A key: digits are inserted, other characters dropped.
    method PressKey(c: char)
      requires Valid() && Canonical(value)
      modifies this
      ensures Valid() && Canonical(value) && (old(Fits()) ==> Fits())
      ensures !IsDigit(c) ==> value == old(value) && cursor == old(cursor)
      ensures IsDigit(c) ==>
        Edited(Strip(old(value)), DigitsBefore(old(value), old(cursor)), InsertDigit(c), charLimit,
               Strip(value), DigitsBefore(value, cursor))
    {
      if c < '0' || c > '9' {
        return;
      }
      Mutate(InsertDigit(c));
    }

    // A paste: only the digits of the payload arrive.
    method Paste(content: string)
      requires Valid() && Canonical(value)
      modifies this
      ensures Valid() && Canonical(value) && (old(Fits()) ==> Fits())
      ensures OnlyDigits(content) == "" ==> value == old(value) && cursor == old(cursor)
      ensures OnlyDigits(content) != "" ==>
        Edited(Strip(old(value)), DigitsBefore(old(value), old(cursor)), InsertString(OnlyDigits(content)), charLimit,
               Strip(value), DigitsBefore(value, cursor))
    {
      var pasted := FilterDigits(content);
      if pasted == "" {
        return;
      }
      Mutate(InsertString(pasted));
    }

    method Sats() returns (n: int64)
      requires Valid()
      ensures n == Wrap(Number(StripDigits(value)))
    {
      DigitsTrim(StripDigits(value));
      n := ParseSats(value);
    }
  }

  // The digits of a text that is digits and commas.
  function StripDigits(s: string): (r: string)
    requires forall c | c in s :: IsDigit(c) || c == ','
    ensures Digits(r) && r == Strip(s)
  {
    Strip(s)
  }

  datatype Edit = Key(c: char) | Pasted(content: string) | Backspace | MoveTo(cursor: nat)

  // What a canonical text of at most sixteen grouped characters can say.
  lemma ShownNumber(s: string)
    requires Canonical(s) && GroupedLength(|Strip(s)|) <= 16
    ensures Digits(Strip(s)) && |Strip(s)| <= 12 && Number(Strip(s)) < 1_000_000_000_000
    ensures !Zeros(s) ==> s == Commas(Decimal(Number(Strip(s))))
  {
    var d := Strip(s);
    CanonicalIsDisplay(s);
    NumberBound(d);
    PowTwelve(|d|);
    if !Zeros(s) {
      GroupedUnique(s);
      CommasGrouped(d);
      NumberWrites(d);
    }
  }

  method Do(field: AmountField, edit: Edit)
    requires field.Valid() && Canonical(field.value) && field.Fits()
    modifies field
    ensures field.Valid() && Canonical(field.value) && field.Fits()
  {
    match edit {
      case Key(c) => field.PressKey(c);
      case Pasted(content) => field.Paste(content);
      case Backspace => field.Mutate(DeleteLeft);
      case MoveTo(cursor) =>
        if cursor <= |field.value| {
          field.cursor := cursor;
        }
    }
  }

  // Whatever is typed, pasted, erased and wherever the cursor goes in between, a field of
  // sixteen characters shows a canonical text of at most twelve digits and means exactly the
  // number it shows.
  method AnyEdits(edits: seq<Edit>) returns (field: AmountField, sats: int64)
    ensures fresh(field) && field.Valid() && Canonical(field.value) && |Strip(field.value)| <= 12
    ensures sats as int == Number(StripDigits(field.value)) < 1_000_000_000_000
    ensures !Zeros(field.value) ==> field.value == Commas(Decimal(sats as int))
  {
    field := new AmountField(16);
    for i := 0 to |edits|
      invariant fresh(field) && field.Valid() && Canonical(field.value) && field.Fits() && field.charLimit == 16
    {
      Do(field, edits[i]);
    }
    ShownNumber(field.value);
    sats := field.Sats();
  }

  lemma PowTwelve(k: nat)
    requires k <= 12
    ensures Pow10(k) <= 1_000_000_000_000
  {
    assert Pow10(3) == 1000 && Pow10(6) == 1_000_000 && Pow10(9) == 1_000_000_000 && Pow10(12) == 1_000_000_000_000;
    PowGrows(k, 12);
  }

  lemma {:induction false} PowGrows(k: nat, n: nat)
    requires k <= n
    ensures Pow10(k) <= Pow10(n)
  {
    if k < n {
      PowGrows(k, n - 1);
    }
  }

  // A number without leading zeros is written in one way.
  lemma {:induction false} NumberWrites(d: string)
    requires Digits(d) && d != "" && d[0] != '0'
    ensures Number(d) > 0 && Decimal(Number(d)) == d
  {
    var init, last := d[..|d| - 1], d[|d| - 1];
    assert d == init + [last] && IsDigit(last);
    if init != "" {
      assert init[0] == d[0];
      NumberWrites(init);
      assert Number(d) / 10 == Number(init) && Number(d) % 10 == Value(last);
    } else {
      assert Number(init) == 0 && Number(d) == Value(last);
    }
  }

  lemma NoneCollapse(s: string)
    requires s != "" && s[0] != '0'
    ensures !Zeros(s) && LeadingZeros(s) == 0 && Significant(s) == s
  {
    assert s[0] in s;
  }

  // A zero typed in front of a number never settles.
  lemma ZeroInFront(raw: string, limit: nat, mid: string, at: nat)
    requires raw != "" && raw[0] != '0' && (limit > 0 ==> GroupedLength(|raw|) <= limit)
    requires Edited(raw, 0, InsertDigit('0'), limit, mid, at)
    ensures mid == raw && at == 0
  {
    var edited := raw[..0] + ['0'] + raw[0..];
    assert edited[1..] == raw && edited[1] in edited && LeadingZeros(edited) == 1;
  }

  lemma DigitTyped(raw: string, pos: nat, d: char, limit: nat, mid: string, at: nat)
    requires pos <= |raw| && raw != "" && raw[0] != '0' && (d != '0' || pos > 0)
    requires limit == 0 || GroupedLength(|raw| + 1) <= limit
    requires Edited(raw, pos, InsertDigit(d), limit, mid, at)
    ensures at == pos + 1 <= |mid| && mid[..at - 1] + mid[at..] == raw
  {
    var edited := Inserted(raw, pos, d);
    assert mid == edited;
    assert edited[..pos] == raw[..pos] && edited[pos + 1..] == raw[pos..];
  }

  lemma DigitCrowdsOut(raw: string, pos: nat, d: char, limit: nat, mid: string, at: nat)
    requires pos <= |raw| && raw != "" && raw[0] != '0' && (d != '0' || pos > 0)
    requires limit > 0 && GroupedLength(|raw|) <= limit < GroupedLength(|raw| + 1)
    requires Edited(raw, pos, InsertDigit(d), limit, mid, at)
    ensures |mid| == |raw| && 0 < at <= |mid|
  {
    var edited := Inserted(raw, pos, d);
  }

  // A digit that is not a leading zero collapses nothing.
  lemma Inserted(raw: string, pos: nat, d: char) returns (edited: string)
    requires pos <= |raw| && raw != "" && raw[0] != '0' && (d != '0' || pos > 0)
    ensures edited == raw[..pos] + [d] + raw[pos..] && |edited| == |raw| + 1
    ensures !Zeros(edited) && LeadingZeros(edited) == 0 && Significant(edited) == edited
  {
    edited := raw[..pos] + [d] + raw[pos..];
    assert edited[0] == if pos == 0 then d else raw[0];
    NoneCollapse(edited);
  }

  lemma InsertThenDelete(raw: string, pos: nat, d: char, limit: nat, mid: string, at: nat, last: string, end: nat)
    requires pos <= |raw| && raw != "" && raw[0] != '0' && (limit > 0 ==> GroupedLength(|raw|) <= limit)
    requires Edited(raw, pos, InsertDigit(d), limit, mid, at)
    requires at <= |mid| && Edited(mid, at, DeleteLeft, limit, last, end)
    ensures last == raw <==> HasRoom(raw, limit) || (d == '0' && pos == 0)
  {
    if d == '0' && pos == 0 {
      ZeroInFront(raw, limit, mid, at);
      ErasedNothing(raw, limit, last, end);
    } else {
      if limit == 0 || GroupedLength(|raw| + 1) <= limit {
        DigitTyped(raw, pos, d, limit, mid, at);
        ErasedBack(raw, mid, at, limit, last, end);
      } else {
        DigitCrowdsOut(raw, pos, d, limit, mid, at);
        ErasedDigit(mid, at, limit, last, end);
      }
    }
  }

  lemma ErasedNothing(raw: string, limit: nat, last: string, end: nat)
    requires raw != "" && raw[0] != '0' && (limit > 0 ==> GroupedLength(|raw|) <= limit)
    requires Edited(raw, 0, DeleteLeft, limit, last, end)
    ensures last == raw
  {
    NoneCollapse(raw);
  }

  lemma ErasedBack(raw: string, mid: string, at: nat, limit: nat, last: string, end: nat)
    requires raw != "" && raw[0] != '0' && (limit > 0 ==> GroupedLength(|raw|) <= limit)
    requires 0 < at <= |mid| && mid[..at - 1] + mid[at..] == raw && Edited(mid, at, DeleteLeft, limit, last, end)
    ensures last == raw
  {
    NoneCollapse(raw);
  }

  lemma ErasedDigit(mid: string, at: nat, limit: nat, last: string, end: nat)
    requires 0 < at <= |mid| && Edited(mid, at, DeleteLeft, limit, last, end)
    ensures |last| < |mid|
  {
    var edited := mid[..at - 1] + mid[at..];
    assert |last| <= |Significant(edited)| <= |edited|;
  }

  // Among zeros, a zero stays where it was typed and any other digit makes those before it
  // collapse for good.
  lemma ZerosInsertThenDelete(raw: string, pos: nat, d: char, limit: nat, mid: string, at: nat, last: string, end: nat)
    requires Zeros(raw) && pos <= |raw| && IsDigit(d) && (limit > 0 ==> GroupedLength(|raw|) <= limit)
    requires Edited(raw, pos, InsertDigit(d), limit, mid, at)
    requires at <= |mid| && Edited(mid, at, DeleteLeft, limit, last, end)
    ensures last == raw <==> HasRoom(raw, limit) && (d == '0' || pos == 0)
  {
    if d == '0' {
      ZeroAmongZeros(raw, pos, limit, mid, at);
      ErasedZero(mid, at, limit, last, end);
      ZerosByLength(raw, last);
    } else {
      DigitAmongZeros(raw, pos, d, limit, mid, at);
      ErasedFirst(mid, limit, last, end);
      ZerosByLength(raw, last);
    }
  }

  predicate HasRoom(raw: string, limit: nat) {
    limit == 0 || GroupedLength(|raw| + 1) <= limit
  }

  lemma ZerosByLength(a: string, b: string)
    requires Zeros(a) && Zeros(b)
    ensures a == b <==> |a| == |b|
  {
    assert forall i | 0 <= i < |a| :: a[i] in a;
    assert forall i | 0 <= i < |b| :: b[i] in b;
  }

  lemma ZeroAmongZeros(raw: string, pos: nat, limit: nat, mid: string, at: nat)
    requires Zeros(raw) && pos <= |raw| && (limit > 0 ==> GroupedLength(|raw|) <= limit)
    requires Edited(raw, pos, InsertDigit('0'), limit, mid, at)
    ensures Zeros(mid) && |mid| == (if HasRoom(raw, limit) then |raw| + 1 else |raw|) && 0 < at <= |mid|
  {
    var edited := raw[..pos] + ['0'] + raw[pos..];
    ZerosPart(raw, 0, pos);
    ZerosPart(raw, pos, |raw|);
    assert raw[0..pos] == raw[..pos] && raw[pos..|raw|] == raw[pos..];
    ZerosTogether(raw[..pos], ['0']);
    ZerosTogether(raw[..pos] + ['0'], raw[pos..]);
    ZerosPart(edited, 0, |mid|);
    assert mid == edited[0..|mid|];
  }

  lemma ZerosPart(s: string, i: nat, j: nat)
    requires Zeros(s) && i <= j <= |s|
    ensures Zeros(s[i..j])
  {
    forall c | c in s[i..j] ensures c == '0' {
      var k :| 0 <= k < j - i && s[i..j][k] == c;
      assert s[i + k] == c && s[i + k] in s;
    }
  }

  lemma ZerosTogether(a: string, b: string)
    requires Zeros(a) && Zeros(b)
    ensures Zeros(a + b)
  {
  }

  lemma ErasedZero(mid: string, at: nat, limit: nat, last: string, end: nat)
    requires Zeros(mid) && 0 < at <= |mid| && (limit > 0 ==> GroupedLength(|mid|) <= limit)
    requires Edited(mid, at, DeleteLeft, limit, last, end)
    ensures Zeros(last) && |last| == |mid| - 1
  {
    var edited := mid[..at - 1] + mid[at..];
    ZerosPart(mid, 0, at - 1);
    ZerosPart(mid, at, |mid|);
    assert mid[0..at - 1] == mid[..at - 1] && mid[at..|mid|] == mid[at..];
    ZerosTogether(mid[..at - 1], mid[at..]);
    assert last == edited;
  }

  lemma DigitAmongZeros(raw: string, pos: nat, d: char, limit: nat, mid: string, at: nat)
    requires Zeros(raw) && pos <= |raw| && IsDigit(d) && d != '0' && (limit > 0 ==> GroupedLength(|raw|) <= limit)
    requires Edited(raw, pos, InsertDigit(d), limit, mid, at)
    ensures mid != "" && Zeros(mid[1..]) && at == 1
    ensures |mid| - 1 == |raw| <==> HasRoom(raw, limit) && pos == 0
  {
    var edited := CollapsedZeros(raw, pos, d);
    FitAfterZeros(raw, pos, d, limit, mid);
  }

  lemma FitAfterZeros(raw: string, pos: nat, d: char, limit: nat, mid: string)
    requires Zeros(raw) && pos <= |raw| && LongestFit(mid, [d] + raw[pos..], limit)
    requires limit > 0 ==> GroupedLength(|raw|) <= limit
    ensures mid != "" && Zeros(mid[1..])
    ensures |mid| - 1 == |raw| <==> HasRoom(raw, limit) && pos == 0
  {
    var all, n := [d] + raw[pos..], |raw| - pos;
    WholeFits(mid, all, limit);
    var m := |mid| - 1;
    assert mid == all[..m + 1] && m <= n;
    assert all[1..m + 1] == raw[pos..pos + m];
    ZerosPart(raw, pos, pos + m);
    assert mid[1..] == raw[pos..pos + m];
  }

  lemma WholeFits(kept: string, all: string, limit: nat)
    requires LongestFit(kept, all, limit) && all != ""
    ensures kept != "" && (kept == all <==> limit == 0 || GroupedLength(|all|) <= limit)
    ensures |kept| <= |all| && (kept == all <==> |kept| == |all|)
  {
  }

  lemma CollapsedZeros(raw: string, pos: nat, d: char) returns (edited: string)
    requires Zeros(raw) && pos <= |raw| && IsDigit(d) && d != '0'
    ensures edited == raw[..pos] + [d] + raw[pos..]
    ensures !Zeros(edited) && LeadingZeros(edited) == pos && Significant(edited) == [d] + raw[pos..]
  {
    edited := raw[..pos] + [d] + raw[pos..];
    assert edited[pos] == d && edited[pos] in edited;
    assert forall i | 0 <= i < pos :: edited[i] == raw[i] && raw[i] in raw;
    assert edited[pos..] == [d] + raw[pos..];
  }

  lemma ErasedFirst(mid: string, limit: nat, last: string, end: nat)
    requires mid != "" && Zeros(mid[1..]) && (limit > 0 ==> GroupedLength(|mid|) <= limit)
    requires Edited(mid, 1, DeleteLeft, limit, last, end)
    ensures Zeros(last) && |last| == |mid| - 1
  {
    var edited := mid[..0] + mid[1..];
    assert edited == mid[1..] && last == edited;
  }

  // An insertion and a deletion, as the texts show them.
  lemma TextRestored(before: string, cursor: nat, d: char, limit: nat, mid: string, at: nat, after: string, end: nat)
    requires Canonical(before) && cursor <= |before| && IsDigit(d) && Canonical(after)
    requires limit > 0 ==> GroupedLength(|Strip(before)|) <= limit
    requires Edited(Strip(before), DigitsBefore(before, cursor), InsertDigit(d), limit, mid, at)
    requires at <= |mid| && Edited(mid, at, DeleteLeft, limit, Strip(after), end)
    ensures after == before <==> BackspaceRestores(before, cursor, d, limit)
  {
    SameText(after, before);
    if Zeros(before) {
      assert ',' !in before;
      StripKeeps(before);
      ZerosInsertThenDelete(before, DigitsBefore(before, cursor), d, limit, mid, at, Strip(after), end);
    } else {
      NumberShown(before);
      InsertThenDelete(Strip(before), DigitsBefore(before, cursor), d, limit, mid, at, Strip(after), end);
    }
  }

  // In a number the digit has room, or is a zero in front and so never settles. Among zeros
  // it has room, and is a zero or comes first.
  predicate BackspaceRestores(value: string, cursor: nat, d: char, limit: nat)
    requires cursor <= |value|
  {
    if Zeros(value) then HasRoom(Strip(value), limit) && (d == '0' || DigitsBefore(value, cursor) == 0)
    else HasRoom(Strip(value), limit) || (d == '0' && DigitsBefore(value, cursor) == 0)
  }

  // Backspace takes back a typed digit exactly then.
  method TypeThenErase(field: AmountField, d: char)
    requires field.Valid() && Canonical(field.value) && IsDigit(d) && field.Fits()
    modifies field
    ensures field.value == old(field.value) <==>
            BackspaceRestores(old(field.value), old(field.cursor), d, field.charLimit)
  {
    ghost var before, cursor := field.value, field.cursor;
    field.Mutate(InsertDigit(d));
    ghost var mid, at := Strip(field.value), DigitsBefore(field.value, field.cursor);
    field.Mutate(DeleteLeft);
    TextRestored(before, cursor, d, field.charLimit, mid, at, field.value, DigitsBefore(field.value, field.cursor));
  }

  lemma FirstZero(kept: string, at: nat)
    requires Edited("", 0, InsertDigit('0'), 16, kept, at)
    ensures kept == "0" && at == 1
  {
    assert Apply(InsertDigit('0'), "", 0).0 == "0";
  }

  lemma ThenFive(kept: string, at: nat)
    requires Edited("0", 1, InsertDigit('5'), 16, kept, at)
    ensures kept == "5" && at == 1
  {
    var edited := CollapsedZeros("0", 1, '5');
    assert Significant(edited) == "5";
  }

  lemma ThenNothing(kept: string, at: nat)
    requires Edited("5", 1, DeleteLeft, 16, kept, at)
    ensures kept == ""
  {
    assert Apply(DeleteLeft, "5", 1).0 == "";
  }

  // A field on which it fails: a 0 is typed, then a 5, and erasing the 5 takes the 0 along.
  method ZeroIsNotRestored() returns (before: string, after: string)
    ensures before == "0" && after == ""
  {
    var field := new AmountField(16);
    field.PressKey('0');
    before := field.value;
    FirstZero(Strip(before), DigitsBefore(before, field.cursor));
    CanonicalIsDisplay(before);
    field.PressKey('5');
    ThenFive(Strip(field.value), DigitsBefore(field.value, field.cursor));
    field.Mutate(DeleteLeft);
    after := field.value;
    ThenNothing(Strip(after), DigitsBefore(after, field.cursor));
    CanonicalIsDisplay(after);
  }

  lemma NumberShown(s: string)
    requires Canonical(s) && !Zeros(s)
    ensures Strip(s) != "" && Strip(s)[0] != '0'
  {
    GroupedUnique(s);
    CommasGrouped(Strip(s));
  }

  // A canonical text is determined by its digits.
  lemma SameText(a: string, b: string)
    requires Canonical(a) && Canonical(b)
    ensures a == b <==> Strip(a) == Strip(b)
  {
    CanonicalIsDisplay(a);
    CanonicalIsDisplay(b);
  }
}
