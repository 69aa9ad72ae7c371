/**
 Query rewriting for the adapters (src/adapters/placeholders.ts and `buildQuery` in
 src/adapters/drizzle.ts): `$N` placeholders are parsed, and array-cast parameters become
 `ARRAY[...]` constructors of scalar ones.
 */
module Placeholders {
  /** A bound value: an opaque scalar, an array, or the `undefined` that an index out of range reads. */
  datatype Value = Scalar(id: nat) | Array(items: seq<Value>) | Undefined

  /** The literal segments of a text, and the digits of the placeholders between them. */
  datatype Parsed = Parsed(parts: seq<string>, digits: seq<string>)

  predicate IsDigit(c: char)
  {
    '0' <= c <= '9'
  }

  // ---- Numbers ---------------------------------------------------------------------------------

  predicate AllDigits(s: string)
  {
    forall i | 0 <= i < |s| :: IsDigit(s[i])
  }

  /** `Number(digits)` */
  function NumberOf(digits: string): nat
    requires AllDigits(digits)
  {
    if digits == "" then 0 else 10 * NumberOf(digits[..|digits| - 1]) + (digits[|digits| - 1] - '0') as nat
  }

  function Decimal(n: nat): (s: string)
    ensures AllDigits(s) && s != "" && NumberOf(s) == n
  {
    var last := ['0' + (n % 10) as char];
    if n < 10 then last
    else
      var front := Decimal(n / 10);
      assert (front + last)[..|front|] == front;
      front + last
  }

  // ---- Parsing ---------------------------------------------------------------------------------

  /** `/\$(\d+)/` matches here. */
  predicate MatchAt(text: string, i: nat)
  {
    i + 1 < |text| && text[i] == '$' && IsDigit(text[i + 1])
  }

  function FirstMatch(text: string, from: nat): (i: nat)
    requires from <= |text|
    ensures from <= i <= |text| && (i < |text| ==> MatchAt(text, i))
    ensures forall j | from <= j < i :: !MatchAt(text, j)
    decreases |text| - from
  {
    if from == |text| || MatchAt(text, from) then from else FirstMatch(text, from + 1)
  }

  function DigitsEnd(text: string, from: nat): (i: nat)
    requires from <= |text|
    ensures from <= i <= |text| && (i < |text| ==> !IsDigit(text[i]))
    ensures forall j | from <= j < i :: IsDigit(text[j])
    decreases |text| - from
  {
    if from == |text| || !IsDigit(text[from]) then from else DigitsEnd(text, from + 1)
  }

  /** A segment and a placeholder, before what else there is. */
  function Before(part: string, digits: string, rest: Parsed): Parsed
  {
    Parsed([part] + rest.parts, [digits] + rest.digits)
  }

  function Parse(text: string): (p: Parsed)
    ensures |p.parts| == |p.digits| + 1
    decreases |text|
  {
    var at := FirstMatch(text, 0);
    if at == |text| then Parsed([text], [])
    else
      var end := DigitsEnd(text, at + 1);
      Before(text[..at], text[at + 1..end], Parse(text[end..]))
  }

  /** What a placeholder reads: `values?.[Number(digits) - 1]`. */
  function Lookup(values: seq<Value>, digits: string): Value
  {
    if AllDigits(digits) && 1 <= NumberOf(digits) <= |values| then values[NumberOf(digits) - 1] else Undefined
  }

  function Reordered(values: seq<Value>, digits: seq<string>): seq<Value>
  {
    seq(|digits|, i requires 0 <= i < |digits| => Lookup(values, digits[i]))
  }

  /** The text with segments and placeholders put together again. */
  function Weave(parts: seq<string>, digits: seq<string>): string
    requires |parts| == |digits| + 1
  {
    if digits == [] then parts[0] else parts[0] + "$" + digits[0] + Weave(parts[1..], digits[1..])
  }

  ghost predicate NoMatchIn(s: string)
  {
    forall i: nat | i < |s| :: !MatchAt(s, i)
  }

  /** What makes a split of a text the one that the scan finds. */
  ghost predicate IsParse(p: Parsed)
  {
    && |p.parts| == |p.digits| + 1
    && (forall i | 0 <= i < |p.digits| :: AllDigits(p.digits[i]) && p.digits[i] != "")
    && (forall i | 0 <= i < |p.parts| :: NoMatchIn(p.parts[i]))
    && (forall i | 0 < i < |p.parts| :: p.parts[i] == "" || !IsDigit(p.parts[i][0]))
  }

  lemma FirstMatchIs(text: string, from: nat, i: nat)
    requires from <= i <= |text| && (i < |text| ==> MatchAt(text, i)) && forall j | from <= j < i :: !MatchAt(text, j)
    ensures FirstMatch(text, from) == i
  {
    var at := FirstMatch(text, from);
    assert !(at < i) && !(i < at);
  }

  lemma DigitsEndIs(text: string, from: nat, i: nat)
    requires from <= i <= |text| && (i < |text| ==> !IsDigit(text[i])) && forall j | from <= j < i :: IsDigit(text[j])
    ensures DigitsEnd(text, from) == i
  {
    var end := DigitsEnd(text, from);
    assert !(end < i) && !(i < end);
  }

  lemma WeaveBefore(part: string, digits: string, rest: Parsed)
    requires |rest.parts| == |rest.digits| + 1
    ensures var p := Before(part, digits, rest);
        Weave(p.parts, p.digits) == part + "$" + digits
        + Weave(rest.parts, rest.digits)
  {
    var p := Before(part, digits, rest);
    assert p.parts[1..] == rest.parts && p.digits[1..] == rest.digits;
  }

  lemma IsParseBefore(part: string, digits: string, rest: Parsed)
    requires IsParse(rest) && NoMatchIn(part) && AllDigits(digits) && digits != ""
    requires rest.parts[0] == "" || !IsDigit(rest.parts[0][0])
    ensures IsParse(Before(part, digits, rest))
  {
  }

  lemma Pieces(text: string, at: nat, end: nat)
    requires at == FirstMatch(text, 0) < |text| && end == DigitsEnd(text, at + 1)
    ensures at + 1 < end && text == text[..at] + "$" + text[at + 1..end] + text[end..]
    ensures NoMatchIn(text[..at]) && AllDigits(text[at + 1..end])
  {
    assert forall i: nat | i < at :: MatchAt(text[..at], i) ==> MatchAt(text, i);
  }

  /** No text is lost, no segment holds a placeholder, and every placeholder takes all its digits. */
  lemma {:induction false} ParseIsParse(text: string)
    ensures IsParse(Parse(text)) && Weave(Parse(text).parts, Parse(text).digits) == text
    decreases |text|
  {
    var at := FirstMatch(text, 0);
    if at < |text| {
      var end := DigitsEnd(text, at + 1);
      Pieces(text, at, end);
      ParseIsParse(text[end..]);
      FirstCharacter(Parse(text[end..]), text[end..]);
      IsParseBefore(text[..at], text[at + 1..end], Parse(text[end..]));
      WeaveBefore(text[..at], text[at + 1..end], Parse(text[end..]));
    } else {
      assert forall i: nat | i < |text| :: !MatchAt(text, i);
    }
  }

  /** A text that does not start with a digit has a first segment that does not. */
  lemma FirstCharacter(p: Parsed, text: string)
    requires |p.parts| == |p.digits| + 1 && text == Weave(p.parts, p.digits)
    ensures p.parts[0] == "" || (text != "" && text[0] == p.parts[0][0])
  {
  }

  /** And it is the only split of the text like that. */
  lemma {:induction false} ParseUnique(p: Parsed)
    requires IsParse(p)
    ensures Parse(Weave(p.parts, p.digits)) == p
    decreases |p.digits|
  {
    if p.digits == [] {
      assert forall i: nat | i < |p.parts[0]| :: !MatchAt(p.parts[0], i);
      assert p == Parsed([p.parts[0]], []);
    } else {
      var part, digits, rest := p.parts[0], p.digits[0], Parsed(p.parts[1..], p.digits[1..]);
      assert p == Before(part, digits, rest);
      WeaveBefore(part, digits, rest);
      ParseUnique(rest);
      StartsNoDigit(rest);
      ParseFinds(part, digits, Weave(rest.parts, rest.digits));
    }
  }

  lemma ParseFinds(part: string, digits: string, tail: string)
    requires NoMatchIn(part) && AllDigits(digits) && digits != "" && (tail == "" || !IsDigit(tail[0]))
    ensures Parse(part + "$" + digits + tail) == Before(part, digits, Parse(tail))
  {
    ScanFinds(part, digits, tail);
    var text, at, end := part + "$" + digits + tail, |part|, |part| + 1 + |digits|;
    assert text[..at] == part && text[at + 1..end] == digits && text[end..] == tail;
  }

  lemma StartsNoDigit(p: Parsed)
    requires |p.parts| == |p.digits| + 1 && (p.parts[0] == "" || !IsDigit(p.parts[0][0]))
    ensures var text := Weave(p.parts, p.digits); text == "" || !IsDigit(text[0])
  {
  }

  lemma {:induction false} ScanFinds(part: string, digits: string, tail: string)
    requires NoMatchIn(part) && AllDigits(digits) && digits != "" && (tail == "" || !IsDigit(tail[0]))
    ensures var text := part + "$" + digits + tail;
      FirstMatch(text, 0) == |part| && DigitsEnd(text, |part| + 1) == |part| + 1 + |digits|
  {
    var text := part + "$" + digits + tail;
    assert text[|part|] == '$' && text[|part| + 1] == digits[0];
    assert MatchAt(text, |part|);
    forall j: nat | j < |part| ensures !MatchAt(text, j) {
      assert !MatchAt(part, j) && text[j] == part[j];
      assert j + 1 < |part| ==> text[j + 1] == part[j + 1];
    }
    assert forall j | |part| + 1 <= j < |part| + 1 + |digits| :: text[j] == digits[j - |part| - 1];
    if |part| + 1 + |digits| < |text| {
      assert text[|part| + 1 + |digits|] == tail[0];
    }
    FirstMatchIs(text, 0, |part|);
    DigitsEndIs(text, |part| + 1, |part| + 1 + |digits|);
  }

  /** The scan's state: what is left to parse from `lastIndex`, and what has been. */
  ghost predicate Scanned(text: string, lastIndex: nat, parts: seq<string>, digits: seq<string>)
  {
    lastIndex <= |text| && Parse(text) == After(parts, digits, Parse(text[lastIndex..]))
  }

  ghost function After(parts: seq<string>, digits: seq<string>, rest: Parsed): Parsed
  {
    Parsed(parts + rest.parts, digits + rest.digits)
  }

  lemma AfterBefore(parts: seq<string>, digits: seq<string>, part: string, digit: string,
      rest: Parsed)
    ensures After(parts, digits, Before(part, digit, rest)) == After(parts + [part], digits + [digit], rest)
  {
    assert parts + ([part] + rest.parts) == (parts + [part]) + rest.parts;
    assert digits + ([digit] + rest.digits) == (digits + [digit]) + rest.digits;
  }

  lemma ParseRest(text: string, from: nat, at: nat, end: nat)
    requires from <= |text| && at == FirstMatch(text, from) < |text| && end == DigitsEnd(text, at + 1)
    ensures from <= at < end <= |text|
    ensures Parse(text[from..]) == Before(text[from..at], text[at + 1..end], Parse(text[end..]))
  {
    FoundShifts(text, from, at, end);
    SlicesShift(text, from, at, end);
    ParseHead(text[from..], at - from, end - from, text[from..at], text[at + 1..end], text[end..]);
  }

  lemma FoundShifts(text: string, from: nat, at: nat, end: nat)
    requires from <= |text| && at == FirstMatch(text, from) < |text| && end == DigitsEnd(text, at + 1)
    ensures from <= at < end <= |text| && at - from < |text[from..]|
    ensures at - from == FirstMatch(text[from..], 0) && end - from == DigitsEnd(text[from..], at - from + 1)
  {
    ScanShifts(text, from);
  }

  lemma ParseHead(text: string, at: nat, end: nat, part: string, digits: string, tail: string)
    requires at == FirstMatch(text, 0) < |text| && end == DigitsEnd(text, at + 1)
    requires part == text[..at] && digits == text[at + 1..end] && tail == text[end..]
    ensures Parse(text) == Before(part, digits, Parse(tail))
  {
  }

  lemma SlicesShift(text: string, from: nat, at: nat, end: nat)
    requires from <= at < end <= |text|
    ensures var rest := text[from..];
      && rest[..at - from] == text[from..at] && rest[at - from + 1..end - from] == text[at + 1..end]
          && rest[end - from..] == text[end..]
  {
  }

  lemma ParseLast(text: string, from: nat)
    requires from <= |text| == FirstMatch(text, from)
    ensures Parse(text[from..]) == Parsed([text[from..]], [])
  {
    ScanShifts(text, from);
  }

  lemma ScanStep(text: string, from: nat, parts: seq<string>, digits: seq<string>, at: nat, end: nat)
    requires Scanned(text, from, parts, digits) && at == FirstMatch(text, from) < |text|
        && end == DigitsEnd(text, at + 1)
    ensures from <= at < end <= |text| && Scanned(text, end, parts + [text[from..at]], digits + [text[at + 1..end]])
  {
    ParseRest(text, from, at, end);
    AfterBefore(parts, digits, text[from..at], text[at + 1..end], Parse(text[end..]));
  }

  lemma ScanEnds(text: string, from: nat, parts: seq<string>, digits: seq<string>)
    requires Scanned(text, from, parts, digits) && FirstMatch(text, from) == |text|
    ensures Parse(text) == Parsed(parts + [text[from..]], digits)
  {
    ParseLast(text, from);
  }

  lemma ReorderedOneMore(values: seq<Value>, digits: seq<string>, more: string)
    ensures Reordered(values, digits + [more]) == Reordered(values, digits) + [Lookup(values, more)]
  {
  }

  method ParsePlaceholders(text: string, values: seq<Value>) returns (parts: seq<string>, reordered: seq<Value>)
    ensures parts == Parse(text).parts && reordered == Reordered(values, Parse(text).digits)
  {
    parts, reordered := [], [];
    ghost var digits: seq<string> := [];
    var lastIndex := 0;
    var at := FirstMatch(text, 0);
    assert text[0..] == text;
    while at < |text|
      invariant lastIndex <= |text| && at == FirstMatch(text, lastIndex)
      invariant Scanned(text, lastIndex, parts, digits)
      invariant reordered == Reordered(values, digits)
      decreases |text| - lastIndex
    {
      var end := DigitsEnd(text, at + 1);
      ScanStep(text, lastIndex, parts, digits, at, end);
      var part, number := text[lastIndex..at], text[at + 1..end];
      ReorderedOneMore(values, digits, number);
      parts, reordered := parts + [part], reordered + [Lookup(values, number)];
      digits := digits + [number];
      lastIndex := end;
      at := FirstMatch(text, lastIndex);
    }
    ScanEnds(text, lastIndex, parts, digits);
    parts := parts + [text[lastIndex..]];
  }

  /** Scanning on from an index finds what scanning the rest of the text finds. */
  lemma ScanShifts(text: string, from: nat)
    requires from <= |text|
    ensures FirstMatch(text[from..], 0) == FirstMatch(text, from) - from
    ensures FirstMatch(text, from) < |text| ==>
      DigitsEnd(text[from..], FirstMatch(text, from) - from + 1) == DigitsEnd(text, FirstMatch(text, from) + 1) - from
  {
    var rest, at := text[from..], FirstMatch(text, from);
    assert forall j: nat | j < |rest| :: MatchAt(rest, j) <==> MatchAt(text, j + from);
    FirstMatchIs(rest, 0, at - from);
    if at < |text| {
      var end := DigitsEnd(text, at + 1);
      assert forall j | at - from + 1 <= j < end - from :: rest[j] == text[j + from];
      assert end < |text| ==> rest[end - from] == text[end];
      DigitsEndIs(rest, at - from + 1, end - from);
    }
  }
}
