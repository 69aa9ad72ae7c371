/**
 Array-cast parameters (`ARRAY_CAST` and `expandArrayParams` in src/adapters/placeholders.ts, `buildQuery`
 in src/adapters/drizzle.ts): the two adapters rewrite a query alike, and the rewrite changes nothing
 but the placeholders.
 */
module ArrayParams {
  import opened Placeholders

  // ---- The array cast --------------------------------------------------------------------------

  predicate IsWordStart(c: char)
  {
    'a' <= c <= 'z' || 'A' <= c <= 'Z' || c == '_'
  }

  predicate IsWord(c: char)
  {
    IsWordStart(c) || IsDigit(c)
  }

  function WordEnd(s: string, from: nat): (i: nat)
    requires from <= |s|
    ensures from <= i <= |s| && (i < |s| ==> !IsWord(s[i]))
    ensures forall j | from <= j < i :: IsWord(s[j])
    decreases |s| - from
  {
    if from == |s| || !IsWord(s[from]) then from else WordEnd(s, from + 1)
  }

  /** `/^::[a-z_][a-z0-9_]*\[\]/i`, where the word ends at `k`. */
  predicate CastAt(s: string, k: nat)
  {
    && 3 <= k && k + 1 < |s| && s[0] == ':' && s[1] == ':' && IsWordStart(s[2])
    && (forall j | 3 <= j < k :: IsWord(s[j])) && s[k] == '[' && s[k + 1] == ']'
  }

  predicate ArrayCast(s: string)
  {
    |s| >= 3 && CastAt(s, WordEnd(s, 3))
  }

  lemma ArrayCastIff(s: string)
    ensures ArrayCast(s) <==> exists k: nat :: CastAt(s, k)
  {
    if k: nat :| CastAt(s, k) {
      assert !IsWord(s[k]);
      var end := WordEnd(s, 3);
      assert !(end < k) && !(k < end);
    }
  }

  // ---- The rewritten query ---------------------------------------------------------------------

  /** Literal segments, and the parameters between them, numbered in order. */
  datatype Query = Query(literals: seq<string>, params: seq<Value>)

  predicate Shaped(q: Query)
  {
    |q.literals| == |q.params| + 1
  }

  predicate Expands(v: Value, next: string)
  {
    v.Array? && ArrayCast(next)
  }

  function AppendText(q: Query, s: string): Query
    requires Shaped(q)
  {
    var n := |q.literals| - 1;
    q.(literals := q.literals[..n] + [q.literals[n] + s])
  }

  function Push(q: Query, v: Value, next: string): Query
  {
    Query(q.literals + [next], q.params + [v])
  }

  /** The elements, with a comma before each but the first. */
  function PushItems(q: Query, items: seq<Value>): (r: Query)
    requires Shaped(q)
    ensures Shaped(r) && r.params == q.params + items
  {
    if items == [] then q
    else Push(WithComma(PushItems(q, items[..|items| - 1]), |items| > 1), items[|items| - 1], "")
  }

  function WithComma(q: Query, comma: bool): Query
    requires Shaped(q)
  {
    if comma then AppendText(q, ",") else q
  }

  function AddParam(q: Query, v: Value, next: string): (r: Query)
    requires Shaped(q)
    ensures Shaped(r) && r.params == q.params + Items(v, next)
  {
    if Expands(v, next) then AppendText(PushItems(AppendText(q, "ARRAY["), v.items), "]" + next)
    else Push(q, v, next)
  }

  /** What one placeholder binds. */
  function Items(v: Value, next: string): seq<Value>
  {
    if Expands(v, next) then v.items else [v]
  }

  function Built(parts: seq<string>, values: seq<Value>): (q: Query)
    requires |parts| == |values| + 1
    ensures Shaped(q)
  {
    var n := |values|;
    if n == 0 then Query([parts[0]], []) else AddParam(Built(parts[..n], values[..n - 1]), values[n - 1], parts[n])
  }

  /** The text in which the parameters are `$1`, `$2` and so on. */
  function TextOf(literals: seq<string>): string
    requires literals != []
  {
    var n := |literals| - 1;
    if n == 0 then literals[0] else TextOf(literals[..n]) + "$" + Decimal(n) + literals[n]
  }

  lemma TextAppended(q: Query, s: string)
    requires Shaped(q)
    ensures TextOf(AppendText(q, s).literals) == TextOf(q.literals) + s
  {
    var n := |q.literals| - 1;
    var after := AppendText(q, s).literals;
    assert after[..n] == q.literals[..n] && after[n] == q.literals[n] + s;
    if n > 0 {
      Associates(TextOf(q.literals[..n]) + "$" + Decimal(n), q.literals[n], s);
    }
  }

  lemma Associates(a: string, b: string, c: string)
    ensures a + b + c == a + (b + c)
  {
  }

  lemma TextPushed(q: Query, v: Value, next: string)
    requires Shaped(q)
    ensures TextOf(Push(q, v, next).literals) == TextOf(q.literals) + "$" + Decimal(|q.params| + 1) + next
  {
    assert Push(q, v, next).literals[..|q.literals|] == q.literals;
  }

  // ---- The two adapters ------------------------------------------------------------------------

  method BuildItems(literals: seq<string>, params: seq<Value>, pending: string, items: seq<Value>)
    returns (literals': seq<string>, params': seq<Value>, pending': string)
    requires |literals| == |params|
    ensures Query(literals' + [pending'], params') == PushItems(Query(literals + [pending], params), items)
  {
    ghost var q := Query(literals + [pending], params);
    literals', params', pending' := literals, params, pending;
    for element := 0 to |items|
      invariant |literals'| == |params'|
      invariant Query(literals' + [pending'], params') ==
          WithComma(PushItems(q, items[..element]), 0 < element < |items|)
    {
      assert items[..element + 1][..element] == items[..element];
      literals', params' := literals' + [pending'], params' + [items[element]];
      pending' := if element == |items| - 1 then "" else ",";
      CommaPending(q, items, element, literals', params');
    }
    assert items[..|items|] == items;
  }

  lemma {:induction false} CommaPending(q: Query, items: seq<Value>, element: nat, literals: seq<string>,
      params: seq<Value>)
    requires Shaped(q) && element < |items| && params != [] && params[|params| - 1] == items[element]
    requires Query(literals, params[..|params| - 1]) == WithComma(PushItems(q, items[..element]), element > 0)
    ensures PushItems(q, items[..element + 1]) == Query(literals + [""], params)
    ensures |literals| == |params| && AppendText(Query(literals + [""], params), ",") == Query(literals + [","], params)
  {
    assert items[..element + 1][..element] == items[..element];
    assert params == params[..|params| - 1] + [items[element]];
    assert (literals + [""])[..|literals|] == literals && "" + "," == ",";
  }

  lemma AppendPending(literals: seq<string>, pending: string, params: seq<Value>, s: string)
    requires |literals| == |params|
    ensures AppendText(Query(literals + [pending], params), s) == Query(literals + [pending + s], params)
  {
    assert (literals + [pending])[..|literals|] == literals;
  }

  lemma BuiltOneMore(parts: seq<string>, values: seq<Value>, i: nat)
    requires |parts| == |values| + 1 && i < |values|
    ensures Built(parts[..i + 2], values[..i + 1]) ==
        AddParam(Built(parts[..i + 1], values[..i]), values[i], parts[i + 1])
  {
    assert parts[..i + 2][..i + 1] == parts[..i + 1] && values[..i + 1][..i] == values[..i];
  }

  /** One round of the loop: `next` is the segment that follows the placeholder. */
  method BuildOne(literals: seq<string>, params: seq<Value>, pending: string, value: Value, next: string)
    returns (literals': seq<string>, params': seq<Value>, pending': string)
    requires |literals| == |params|
    ensures |literals'| == |params'|
    ensures Query(literals' + [pending'], params') == AddParam(Query(literals + [pending], params), value, next)
  {
    if value.Array? && ArrayCast(next) {
      AppendPending(literals, pending, params, "ARRAY[");
      literals', params', pending' := BuildItems(literals, params, pending + "ARRAY[", value.items);
      AppendPending(literals', pending', params', "]" + next);
      pending' := pending' + ("]" + next);
    } else {
      literals', params' := literals + [pending], params + [value];
      pending' := next;
    }
  }

  /** drizzle's: literals for a tagged template, and the parameters between them. */
  method BuildQuery(parts: seq<string>, values: seq<Value>) returns (literals: seq<string>, params: seq<Value>)
    requires |parts| == |values| + 1
    ensures Query(literals, params) == Built(parts, values)
    ensures RightlyExpanded(TextOf(literals), params, parts, values)
  {
    literals, params := [], [];
    var pending := parts[0];
    for i := 0 to |values|
      invariant |literals| == |params|
      invariant Query(literals + [pending], params) == Built(parts[..i + 1], values[..i])
    {
      BuiltOneMore(parts, values, i);
      literals, params, pending := BuildOne(literals, params, pending, values[i], parts[i + 1]);
    }
    assert parts[..|parts|] == parts && values[..|values|] == values;
    literals := literals + [pending];
    BuiltRightly(parts, values);
  }

  /** A placeholder in a constructor, with the comma before it. */
  function Marker(comma: bool, number: nat): string
  {
    (if comma then ",$" else "$") + Decimal(number)
  }

  lemma {:induction false} LastItemText(q: Query, items: seq<Value>)
    requires Shaped(q) && items != []
    ensures TextOf(PushItems(q, items).literals) ==
      TextOf(PushItems(q, items[..|items| - 1]).literals) + Marker(|items| > 1, |q.params| + |items|)
  {
    var before, comma, number := PushItems(q, items[..|items| - 1]), |items| > 1, |q.params| + |items|;
    TextAppended(before, ",");
    TextPushed(WithComma(before, comma), items[|items| - 1], "");
    MarkerJoins(TextOf(before.literals), Decimal(number));
  }

  lemma MarkerJoins(text: string, number: string)
    ensures text + "$" + number + "" == text + ("$" + number)
    ensures text + "," + "$" + number + "" == text + (",$" + number)
  {
  }

  /** `$n+1,$n+2,...`: as many numbers, with commas between them. */
  function JoinedItems(n: nat, count: nat): string
  {
    if count == 0 then "" else JoinedItems(n, count - 1) + Marker(count > 1, n + count)
  }

  lemma {:induction false} TextOfItems(q: Query, items: seq<Value>)
    requires Shaped(q)
    ensures TextOf(PushItems(q, items).literals) == TextOf(q.literals) + JoinedItems(|q.params|, |items|)
  {
    var n := |items|;
    if n > 0 {
      TextOfItems(q, items[..n - 1]);
      LastItemText(q, items);
      Associates(TextOf(q.literals), JoinedItems(|q.params|, n - 1), Marker(n > 1, |q.params| + n));
    }
  }

  method JoinItems(rewritten: string, expanded: seq<Value>, items: seq<Value>)
      returns (rewritten': string, expanded': seq<Value>)
    ensures rewritten' == rewritten + JoinedItems(|expanded|, |items|) && expanded' == expanded + items
  {
    var joined := "";
    expanded' := expanded;
    for element := 0 to |items|
      invariant joined == JoinedItems(|expanded|, element) && expanded' == expanded + items[..element]
    {
      expanded' := expanded' + [items[element]];
      joined := joined + Marker(element > 0, |expanded'|);
    }
    rewritten' := rewritten + joined;
  }

  /** One round of the loop: `next` is the segment that follows the placeholder. */
  method ExpandOne(rewritten: string, expanded: seq<Value>, value: Value, next: string, ghost q: Query)
    returns (rewritten': string, expanded': seq<Value>)
    requires Shaped(q) && rewritten == TextOf(q.literals) && expanded == q.params
    ensures rewritten' == TextOf(AddParam(q, value, next).literals) && expanded' == AddParam(q, value, next).params
  {
    if value.Array? && ArrayCast(next) {
      TextAppended(q, "ARRAY[");
      rewritten', expanded' := JoinItems(rewritten + "ARRAY[", expanded, value.items);
      TextOfItems(AppendText(q, "ARRAY["), value.items);
      TextAppended(PushItems(AppendText(q, "ARRAY["), value.items), "]" + next);
      rewritten' := rewritten' + ("]" + next);
    } else {
      TextPushed(q, value, next);
      expanded' := expanded + [value];
      rewritten' := rewritten + "$" + Decimal(|expanded'|) + next;
    }
  }

  /** Bun's: the text rewritten, and the parameters in a fresh list. */
  method ExpandArrayParams(text: string, values: seq<Value>) returns (rewritten: string, expanded: seq<Value>)
    ensures var q := Built(Parse(text).parts, Reordered(values, Parse(text).digits));
      rewritten == TextOf(q.literals) && expanded == q.params
    ensures RightlyExpanded(rewritten, expanded, Parse(text).parts, Reordered(values, Parse(text).digits))
  {
    var parts, reordered := ParsePlaceholders(text, values);
    rewritten, expanded := ExpandParts(parts, reordered);
    BuiltRightly(parts, reordered);
  }

  method ExpandParts(parts: seq<string>, reordered: seq<Value>) returns (rewritten: string, expanded: seq<Value>)
    requires |parts| == |reordered| + 1
    ensures rewritten == TextOf(Built(parts, reordered).literals) && expanded == Built(parts, reordered).params
  {
    expanded := [];
    rewritten := parts[0];
    for i := 0 to |reordered|
      invariant rewritten == TextOf(Built(parts[..i + 1], reordered[..i]).literals)
      invariant expanded == Built(parts[..i + 1], reordered[..i]).params
    {
      BuiltOneMore(parts, reordered, i);
      rewritten, expanded := ExpandOne(rewritten, expanded, reordered[i], parts[i + 1],
          Built(parts[..i + 1], reordered[..i]));
    }
    assert parts[..|parts|] == parts && reordered[..|reordered|] == reordered;
  }

  /**
   Which placeholders become constructors, and what they bind. Read off the rewritten text, placeholder `i` is a
   constructor of as many elements as its value has if that is an array and an array cast follows it, and a
   placeholder of its own otherwise; and so regrouped, the parameters are the values.
   */
  ghost predicate RightlyExpanded(text: string, params: seq<Value>, parts: seq<string>, values: seq<Value>)
    requires |parts| == |values| + 1
  {
    var shapes := ReadShapes(text, parts);
    && |shapes| == |values| && Regrouped(params, shapes) == values
    && forall i | 0 <= i < |values| ::
         shapes[i] == if values[i].Array? && CastFollows(parts[i + 1]) then Spread(|values[i].items|) else Whole
  }

  /** The pattern matches somewhere: an array cast comes first in the segment. */
  ghost predicate CastFollows(next: string)
  {
    exists k: nat :: CastAt(next, k)
  }

  lemma {:induction false} ShapesRight(parts: seq<string>, values: seq<Value>, i: nat)
    requires |parts| == |values| + 1 && i < |values|
    ensures |Shapes(parts, values)| == |values|
    ensures Shapes(parts, values)[i] ==
        if values[i].Array? && CastFollows(parts[i + 1]) then Spread(|values[i].items|) else Whole
    decreases |values|
  {
    var n := |values|;
    ArrayCastIff(parts[i + 1]);
    ShapesSize(parts[..n], values[..n - 1]);
    if i < n - 1 {
      ShapesRight(parts[..n], values[..n - 1], i);
    }
  }

  lemma {:induction false} ShapesSize(parts: seq<string>, values: seq<Value>)
    requires |parts| == |values| + 1
    ensures |Shapes(parts, values)| == |values|
    decreases |values|
  {
    var n := |values|;
    if n > 0 {
      ShapesSize(parts[..n], values[..n - 1]);
    }
  }

  lemma BuiltRightly(parts: seq<string>, values: seq<Value>)
    requires |parts| == |values| + 1
    ensures var q := Built(parts, values); RightlyExpanded(TextOf(q.literals), q.params, parts, values)
  {
    var q := Built(parts, values);
    ValuesRoundTrip(parts, values);
    OnlyPlaceholdersChange(parts, values);
    ShapesFilled(parts, values);
    ShapesSize(parts, values);
    forall i | 0 <= i < |values|
      ensures Shapes(parts, values)[i] ==
          if values[i].Array? && CastFollows(parts[i + 1]) then Spread(|values[i].items|) else Whole
    {
      ShapesRight(parts, values, i);
    }
  }

  // ---- What the rewrite keeps ------------------------------------------------------------------

  function Numbers(n: nat): seq<string>
  {
    seq(n, i requires 0 <= i < n => Decimal(i + 1))
  }

  /** A literal that holds no placeholder, and adds no digit to the one before it. */
  ghost predicate Plain(s: string)
  {
    NoMatchIn(s) && (s == "" || !IsDigit(s[0]))
  }

  ghost predicate PlainLiterals(literals: seq<string>)
  {
    literals != [] && NoMatchIn(literals[0]) && forall i | 0 < i < |literals| :: Plain(literals[i])
  }

  lemma PlainJoined(s: string, t: string)
    requires NoMatchIn(s) && Plain(t)
    ensures NoMatchIn(s + t) && (Plain(s) ==> Plain(s + t))
  {
    forall i: nat | i < |s + t| ensures !MatchAt(s + t, i) {
      if i < |s| {
        assert !MatchAt(s, i);
      } else {
        assert !MatchAt(t, i - |s|);
      }
    }
  }

  lemma AppendPlain(q: Query, s: string)
    requires Shaped(q) && PlainLiterals(q.literals) && Plain(s)
    ensures PlainLiterals(AppendText(q, s).literals)
  {
    PlainJoined(q.literals[|q.literals| - 1], s);
  }

  lemma {:induction false} PushItemsPlain(q: Query, items: seq<Value>)
    requires Shaped(q) && PlainLiterals(q.literals)
    ensures PlainLiterals(PushItems(q, items).literals)
  {
    if items != [] {
      var before := PushItems(q, items[..|items| - 1]);
      PushItemsPlain(q, items[..|items| - 1]);
      AppendPlain(before, ",");
    }
  }

  lemma {:induction false} BuiltPlain(parts: seq<string>, values: seq<Value>)
    requires |parts| == |values| + 1 && PlainLiterals(parts)
    ensures PlainLiterals(Built(parts, values).literals)
  {
    var n := |values|;
    if n > 0 {
      BuiltPlain(parts[..n], values[..n - 1]);
      var q, v := Built(parts[..n], values[..n - 1]), values[n - 1];
      if Expands(v, parts[n]) {
        AppendPlain(q, "ARRAY[");
        PushItemsPlain(AppendText(q, "ARRAY["), v.items);
        PlainJoined("]", parts[n]);
        AppendPlain(PushItems(AppendText(q, "ARRAY["), v.items), "]" + parts[n]);
      }
    }
  }

  lemma NumbersOneMore(n: nat)
    requires n > 0
    ensures Numbers(n) == Numbers(n - 1) + [Decimal(n)]
  {
  }

  lemma WeaveLast(literals: seq<string>, n: nat)
    requires |literals| == n + 1 && n > 0
    ensures Weave(literals, Numbers(n)) == Weave(literals[..n], Numbers(n - 1)) + "$" + Decimal(n) + literals[n]
  {
    WeaveOneMore(literals[..n], Numbers(n - 1), Decimal(n), literals[n]);
    NumbersOneMore(n);
    assert literals == literals[..n] + [literals[n]];
  }

  lemma {:induction false} TextIsWeave(literals: seq<string>)
    requires literals != []
    ensures TextOf(literals) == Weave(literals, Numbers(|literals| - 1))
  {
    var n := |literals| - 1;
    if n > 0 {
      TextIsWeave(literals[..n]);
      WeaveLast(literals, n);
    }
  }

  lemma {:induction false} WeaveOneMore(parts: seq<string>, digits: seq<string>, number: string, next: string)
    requires |parts| == |digits| + 1
    ensures Weave(parts + [next], digits + [number]) == Weave(parts, digits) + "$" + number + next
    decreases |parts|
  {
    assert (parts + [next])[1..] == parts[1..] + [next];
    if digits == [] {
      assert Weave([next], []) == next;
    } else {
      assert (digits + [number])[1..] == digits[1..] + [number];
      WeaveOneMore(parts[1..], digits[1..], number, next);
    }
  }

  lemma ReparseBuilt(parts: seq<string>, values: seq<Value>)
    requires |parts| == |values| + 1 && PlainLiterals(parts)
    ensures var q := Built(parts, values); Parse(TextOf(q.literals)) == Parsed(q.literals, Numbers(|q.params|))
  {
    var q := Built(parts, values);
    BuiltPlain(parts, values);
    TextIsWeave(q.literals);
    ParseUnique(Parsed(q.literals, Numbers(|q.params|)));
  }

  lemma NumbersReadInOrder(params: seq<Value>)
    ensures Reordered(params, Numbers(|params|)) == params
  {
  }

  /**
   Parsing the rewritten text again finds drizzle's literals, with the parameters numbered from 1 and each
   bound once, in order: the two adapters send the same query.
   */
  lemma RewritesAlike(text: string, values: seq<Value>)
    ensures var q := Built(Parse(text).parts, Reordered(values, Parse(text).digits));
      var again := Parse(TextOf(q.literals));
      again == Parsed(q.literals, Numbers(|q.params|)) && Reordered(q.params, again.digits) == q.params
  {
    ParseIsParse(text);
    var parts, reordered := Parse(text).parts, Reordered(values, Parse(text).digits);
    ReparseBuilt(parts, reordered);
    NumbersReadInOrder(Built(parts, reordered).params);
  }

  /** What stands for one placeholder in the rewritten text, after `n` parameters. */
  function Piece(v: Value, next: string, n: nat): string
  {
    if Expands(v, next) then "ARRAY[" + JoinedItems(n, |v.items|) + "]" else "$" + Decimal(n + 1)
  }

  function Joined(items: seq<string>, separator: string): string
  {
    if items == [] then ""
    else if |items| == 1 then items[0]
    else Joined(items[..|items| - 1], separator) + separator + items[|items| - 1]
  }

  /** The markers of the next parameters: `$n+1`, `$n+2` and so on. */
  function Markers(n: nat, count: nat): seq<string>
  {
    seq(count, i requires 0 <= i < count => "$" + Decimal(n + i + 1))
  }

  lemma {:induction false} ItemsAreJoined(n: nat, count: nat)
    ensures JoinedItems(n, count) == Joined(Markers(n, count), ",")
  {
    if count > 0 {
      ItemsAreJoined(n, count - 1);
      assert Markers(n, count)[..count - 1] == Markers(n, count - 1);
      MarkerText(n, count);
    }
  }

  lemma MarkerText(n: nat, count: nat)
    requires count > 0
    ensures Marker(count > 1, n + count) == (if count > 1 then "," else "") + Markers(n, count)[count - 1]
    ensures count > 1 ==> forall front: string ::
      front + Marker(true, n + count) == front + "," + Markers(n, count)[count - 1]
  {
    assert ",$" == "," + "$";
    assert ",$" + Decimal(n + count) == "," + ("$" + Decimal(n + count));
  }

  /** What the piece says: `ARRAY[$a,$b,...]` with a marker for each element, or the one marker. */
  lemma PieceText(v: Value, next: string, n: nat)
    ensures Piece(v, next, n) ==
        if v.Array? && CastFollows(next) then "ARRAY[" + Joined(Markers(n, |v.items|), ",") + "]"
        else "$" + Decimal(n + 1)
  {
    ArrayCastIff(next);
    if v.Array? {
      ItemsAreJoined(n, |v.items|);
    }
  }

  /** The original segments, with a piece where each placeholder was. */
  function Filled(parts: seq<string>, values: seq<Value>): string
    requires |parts| == |values| + 1
  {
    var n := |values|;
    if n == 0 then parts[0]
    else
      Filled(parts[..n], values[..n - 1]) + Piece(values[n - 1], parts[n], |Built(parts[..n], values[..n - 1]).params|)
          + parts[n]
  }

  lemma TextOfAdded(q: Query, v: Value, next: string)
    requires Shaped(q)
    ensures TextOf(AddParam(q, v, next).literals) == TextOf(q.literals) + Piece(v, next, |q.params|) + next
  {
    if Expands(v, next) {
      var open := AppendText(q, "ARRAY[");
      TextAppended(q, "ARRAY[");
      TextOfItems(open, v.items);
      TextAppended(PushItems(open, v.items), "]" + next);
      Bracketed(TextOf(q.literals), JoinedItems(|q.params|, |v.items|), next);
    } else {
      TextPushed(q, v, next);
      assert TextOf(q.literals) + "$" + Decimal(|q.params| + 1) + next == TextOf(q.literals)
          + ("$" + Decimal(|q.params| + 1)) + next;
    }
  }

  lemma Bracketed(text: string, joined: string, next: string)
    ensures text + "ARRAY[" + joined + ("]" + next) == text + ("ARRAY[" + joined + "]") + next
  {
  }

  lemma OneFilled(parts: seq<string>, values: seq<Value>, n: nat)
    requires |parts| == |values| + 1 && |values| == n && n > 0
    requires TextOf(Built(parts[..n], values[..n - 1]).literals) == Filled(parts[..n], values[..n - 1])
    ensures TextOf(Built(parts, values).literals) == Filled(parts, values)
  {
    TextOfAdded(Built(parts[..n], values[..n - 1]), values[n - 1], parts[n]);
  }

  /**
   Only the placeholders change: each is replaced by its own piece, the text around them is kept, and the
   pieces number the parameters on from one another.
   */
  lemma {:induction false} OnlyPlaceholdersChange(parts: seq<string>, values: seq<Value>)
    requires |parts| == |values| + 1
    ensures TextOf(Built(parts, values).literals) == Filled(parts, values)
  {
    var n := |values|;
    if n > 0 {
      OnlyPlaceholdersChange(parts[..n], values[..n - 1]);
      OneFilled(parts, values, n);
    }
  }

  datatype Shape = Whole | Spread(count: nat)

  function ShapeOf(v: Value, next: string): Shape
  {
    if Expands(v, next) then Spread(|v.items|) else Whole
  }

  function Shapes(parts: seq<string>, values: seq<Value>): seq<Shape>
    requires |parts| == |values| + 1
  {
    var n := |values|;
    if n == 0 then [] else Shapes(parts[..n], values[..n - 1]) + [ShapeOf(values[n - 1], parts[n])]
  }

  /** The parameters put together again: the last shape takes its share from the end. */
  function Regrouped(params: seq<Value>, shapes: seq<Shape>): seq<Value>
    decreases |shapes|
  {
    if shapes == [] then []
    else
      match shapes[|shapes| - 1]
      case Whole => if params == [] then [] else
          Regrouped(params[..|params| - 1], shapes[..|shapes| - 1])
          + [params[|params| - 1]]
      case Spread(count) =>
        if |params| < count then []
        else Regrouped(params[..|params| - count], shapes[..|shapes| - 1]) + [Array(params[|params| - count..])]
  }

  lemma LastSpread(before: seq<Value>, items: seq<Value>, shapes: seq<Shape>)
    ensures Regrouped(before + items, shapes + [Spread(|items|)]) == Regrouped(before, shapes) + [Array(items)]
  {
    var all := before + items;
    assert (shapes + [Spread(|items|)])[..|shapes|] == shapes;
    assert all[..|all| - |items|] == before && all[|all| - |items|..] == items;
  }

  lemma LastWhole(before: seq<Value>, v: Value, shapes: seq<Shape>)
    ensures Regrouped(before + [v], shapes + [Whole]) == Regrouped(before, shapes) + [v]
  {
    assert (shapes + [Whole])[..|shapes|] == shapes;
    assert (before + [v])[..|before|] == before;
  }

  lemma LastRegrouped(before: seq<Value>, shapes: seq<Shape>, v: Value, next: string)
    ensures Regrouped(before + Items(v, next), shapes + [ShapeOf(v, next)]) == Regrouped(before, shapes) + [v]
  {
    if Expands(v, next) {
      LastSpread(before, v.items, shapes);
    } else {
      LastWhole(before, v, shapes);
    }
  }

  /** What the placeholders bind, one after the other. */
  function ParamsOf(parts: seq<string>, values: seq<Value>): seq<Value>
    requires |parts| == |values| + 1
  {
    var n := |values|;
    if n == 0 then [] else ParamsOf(parts[..n], values[..n - 1]) + Items(values[n - 1], parts[n])
  }

  lemma {:induction false} BuiltBinds(parts: seq<string>, values: seq<Value>)
    requires |parts| == |values| + 1
    ensures Built(parts, values).params == ParamsOf(parts, values)
  {
    if values != [] {
      BuiltBinds(parts[..|values|], values[..|values| - 1]);
    }
  }

  lemma {:induction false} Regroups(parts: seq<string>, values: seq<Value>)
    requires |parts| == |values| + 1
    ensures Regrouped(ParamsOf(parts, values), Shapes(parts, values)) == values
  {
    var n := |values|;
    if n > 0 {
      Regroups(parts[..n], values[..n - 1]);
      LastRegrouped(ParamsOf(parts[..n], values[..n - 1]), Shapes(parts[..n], values[..n - 1]), values[n - 1],
          parts[n]);
      assert values == values[..n - 1] + [values[n - 1]];
    }
  }

  // ---- Reading the shapes off the rewritten text -----------------------------------------------

  function CountIn(s: string, c: char): nat
  {
    if s == "" then 0 else CountIn(s[..|s| - 1], c) + if s[|s| - 1] == c then 1 else 0
  }

  /** Where the digits that end here begin. */
  function DigitsStart(s: string, end: nat): (i: nat)
    requires end <= |s|
    ensures i <= end
  {
    if end > 0 && IsDigit(s[end - 1]) then DigitsStart(s, end - 1) else end
  }

  /** The last opening bracket before here. */
  function BracketStart(s: string, end: nat): (i: nat)
    requires end <= |s|
    ensures i <= end
  {
    if end == 0 then 0 else if s[end - 1] == '[' then end - 1 else BracketStart(s, end - 1)
  }

  /**
   The shapes, read from the end of the rewritten text with nothing but the original segments to go by: a
   piece that ends in a bracket is a constructor, of as many elements as it has placeholders, and any other
   is a placeholder of its own.
   */
  function ReadShapes(text: string, parts: seq<string>): seq<Shape>
    decreases |parts|
  {
    var n := |parts| - 1;
    if n <= 0 || |text| <= |parts[n]| then []
    else
      var end := |text| - |parts[n]|;
      if text[end - 1] == ']' then
        var at := BracketStart(text, end);
        ReadShapes(text[..Back(at, 5)], parts[..n]) + [Spread(CountIn(text[at..end], '$'))]
      else
        ReadShapes(text[..Back(DigitsStart(text, end), 1)], parts[..n]) + [Whole]
  }

  function Back(i: nat, k: nat): (j: nat)
    ensures j <= i
  {
    if i < k then 0 else i - k
  }

  lemma {:induction false} CountAppended(s: string, t: string, c: char)
    ensures CountIn(s + t, c) == CountIn(s, c) + CountIn(t, c)
  {
    if t == "" {
      assert s + t == s;
    } else {
      CountAppended(s, t[..|t| - 1], c);
      assert (s + t)[..|s + t| - 1] == s + t[..|t| - 1];
    }
  }

  lemma {:induction false} NoneIn(s: string, c: char)
    requires forall i | 0 <= i < |s| :: s[i] != c
    ensures CountIn(s, c) == 0
  {
    if s != "" {
      NoneIn(s[..|s| - 1], c);
    }
  }

  /** A constructor's elements: one `$` each, and no brackets. */
  lemma {:induction false} JoinedCounts(n: nat, count: nat)
    ensures CountIn(JoinedItems(n, count), '$') == count
    ensures forall i | 0 <= i < |JoinedItems(n, count)| :: JoinedItems(n, count)[i] != '['
  {
    if count > 0 {
      JoinedCounts(n, count - 1);
      var marker := Marker(count > 1, n + count);
      MarkerCounts(count > 1, Decimal(n + count), marker);
      CountAppended(JoinedItems(n, count - 1), marker, '$');
    }
  }

  lemma MarkerCounts(comma: bool, digits: string, marker: string)
    requires AllDigits(digits) && marker == (if comma then ",$" else "$") + digits
    ensures CountIn(marker, '$') == 1 && forall i | 0 <= i < |marker| :: marker[i] != '['
  {
    var sign := if comma then ",$" else "$";
    NoneIn(digits, '$');
    CountAppended(sign, digits, '$');
    assert ",$"[..1] == "," && "$"[..0] == "" && ","[..0] == "";
    assert CountIn("", '$') == 0 && CountIn(",", '$') == 0;
    assert CountIn(sign, '$') == 1;
  }

  lemma {:induction false} BracketFound(front: string, joined: string, rest: string)
    requires forall i | 0 <= i < |joined| :: joined[i] != '['
    ensures BracketStart(front + "[" + joined + rest, |front| + 1 + |joined|) == |front|
    decreases |joined|
  {
    var text := front + "[" + joined + rest;
    if joined == "" {
      assert text[|front|] == '[';
    } else {
      var k := |joined| - 1;
      assert text == front + "[" + joined[..k] + ([joined[k]] + rest);
      BracketFound(front, joined[..k], [joined[k]] + rest);
      assert text[|front| + 1 + k] == joined[k];
    }
  }

  lemma {:induction false} DigitsFound(front: string, digits: string, rest: string)
    requires AllDigits(digits) && (front == "" || !IsDigit(front[|front| - 1]))
    ensures DigitsStart(front + digits + rest, |front| + |digits|) == |front|
    decreases |digits|
  {
    var text := front + digits + rest;
    if digits == "" {
      assert front != "" ==> text[|front| - 1] == front[|front| - 1];
    } else {
      var k := |digits| - 1;
      assert text == front + digits[..k] + ([digits[k]] + rest);
      DigitsFound(front, digits[..k], [digits[k]] + rest);
      assert text[|front| + k] == digits[k];
    }
  }

  /** One piece, with the text before it and the segment after it. */
  lemma PieceRead(front: string, v: Value, parts: seq<string>, n: nat)
    requires |parts| > 1
    ensures var next := parts[|parts| - 1];
      ReadShapes(front + Piece(v, next, n) + next, parts) == ReadShapes(front, parts[..|parts| - 1])
          + [ShapeOf(v, next)]
  {
    var next := parts[|parts| - 1];
    if Expands(v, next) {
      SpreadRead(front, JoinedItems(n, |v.items|), |v.items|, parts) by {
        JoinedCounts(n, |v.items|);
      }
    } else {
      WholeRead(front, Decimal(n + 1), parts);
    }
  }

  lemma SpreadCounted(joined: string)
    ensures CountIn("[" + joined + "]", '$') == CountIn(joined, '$')
  {
    CountAppended("[" + joined, "]", '$');
    CountAppended("[", joined, '$');
    NoneIn("[", '$');
    NoneIn("]", '$');
  }

  /** Where a constructor ends and begins in the text. */
  lemma SpreadFound(front: string, joined: string, next: string, text: string, end: nat)
    requires forall i | 0 <= i < |joined| :: joined[i] != '['
    requires text == front + ("ARRAY[" + joined + "]") + next && end == |front| + 7 + |joined|
    ensures end <= |text| && text[end - 1] == ']' && BracketStart(text, end) == |front| + 5
    ensures text[|front| + 5..end] == "[" + joined + "]" && text[..|front|] == front
  {
    assert text[end - 1] == ']';
    assert text == (front + "ARRAY") + "[" + joined + ("]" + next);
    BracketFound(front + "ARRAY", joined, "]" + next);
    assert BracketStart(text, end) == BracketStart(text, end - 1);
  }

  lemma {:induction false} LastIsSpread(text: string, parts: seq<string>, end: nat, start: nat)
    requires |parts| > 1 && end + |parts[|parts| - 1]| == |text| && 0 < end
    requires text[end - 1] == ']' && BracketStart(text, end) == start && 5 <= start <= end
    ensures ReadShapes(text, parts) ==
        ReadShapes(text[..start - 5], parts[..|parts| - 1]) + [Spread(CountIn(text[start..end], '$'))]
  {
    assert Back(start, 5) == start - 5;
  }

  lemma SpreadRead(front: string, joined: string, count: nat, parts: seq<string>)
    requires |parts| > 1 && CountIn(joined, '$') == count && forall i | 0 <= i < |joined| :: joined[i] != '['
    ensures var next := parts[|parts| - 1];
      ReadShapes(front + ("ARRAY[" + joined + "]") + next, parts) == ReadShapes(front, parts[..|parts| - 1])
          + [Spread(count)]
  {
    var next := parts[|parts| - 1];
    var text, end := front + ("ARRAY[" + joined + "]") + next, |front| + 7 + |joined|;
    SpreadFound(front, joined, next, text, end);
    LastIsSpread(text, parts, end, |front| + 5);
    SpreadCounted(joined);
  }

  lemma WholeFound(front: string, digits: string, next: string, text: string, end: nat)
    requires AllDigits(digits) && digits != ""
    requires text == front + ("$" + digits) + next && end == |front| + 1 + |digits|
    ensures end <= |text| && text[end - 1] != ']' && DigitsStart(text, end) == |front| + 1
    ensures text[..|front|] == front
  {
    assert text[end - 1] == digits[|digits| - 1];
    assert text == (front + "$") + digits + next;
    DigitsFound(front + "$", digits, next);
  }

  lemma LastIsWhole(text: string, parts: seq<string>, end: nat, at: nat)
    requires |parts| > 1 && end + |parts[|parts| - 1]| == |text| && 0 < end
    requires text[end - 1] != ']' && DigitsStart(text, end) == at + 1 <= end
    ensures ReadShapes(text, parts) == ReadShapes(text[..at], parts[..|parts| - 1]) + [Whole]
  {
  }

  lemma WholeRead(front: string, digits: string, parts: seq<string>)
    requires |parts| > 1 && AllDigits(digits) && digits != ""
    ensures var next := parts[|parts| - 1];
      ReadShapes(front + ("$" + digits) + next, parts) == ReadShapes(front, parts[..|parts| - 1]) + [Whole]
  {
    var next := parts[|parts| - 1];
    var text, end := front + ("$" + digits) + next, |front| + 1 + |digits|;
    WholeFound(front, digits, next, text, end);
    LastIsWhole(text, parts, end, |front|);
  }

  lemma {:induction false} ShapesFilled(parts: seq<string>, values: seq<Value>)
    requires |parts| == |values| + 1
    ensures ReadShapes(Filled(parts, values), parts) == Shapes(parts, values)
  {
    var n := |values|;
    if n > 0 {
      ShapesFilled(parts[..n], values[..n - 1]);
      PieceRead(Filled(parts[..n], values[..n - 1]), values[n - 1], parts, |Built(parts[..n], values[..n - 1]).params|);
    }
  }

  /**
   Collapsing every constructor gives back the values as the original text read them: the rewritten text,
   its parameters and the original segments are all it takes.
   */
  lemma ValuesRoundTrip(parts: seq<string>, values: seq<Value>)
    requires |parts| == |values| + 1
    ensures var q := Built(parts, values); Regrouped(q.params, ReadShapes(TextOf(q.literals), parts)) == values
  {
    BuiltBinds(parts, values);
    Regroups(parts, values);
    OnlyPlaceholdersChange(parts, values);
    ShapesFilled(parts, values);
  }
}
