/** The source-span rewriting of `render_code` in docs/_ext/database_examples.py. */
module SpanEdits {
  /** Character offsets into the code, end excluded; the span is empty for an insertion. */
  datatype Span = Span(start: nat, end: nat)

  datatype Edit = Edit(span: Span, value: string)

  /** The order in which Python sorts the edit keys. */
  predicate Before(a: Span, b: Span) {
    a.start < b.start || (a.start == b.start && a.end < b.end)
  }

  /** The order of pairs: by start, then by end. */
  lemma BeforeMeaning(a: Span, b: Span)
    ensures Before(a, b) || Before(b, a) || a == b
    ensures Before(a, b) ==> a.start <= b.start && a != b && !Before(b, a)
    ensures Before(a, b) && a.start == b.start ==> a.end < b.end
  {
  }

  /** Spans lie in the code, and of two different spans the smaller ends no later than the other begins. */
  ghost predicate Disjoint(code: string, spans: set<Span>) {
    && (forall s :: s in spans ==> s.start <= s.end <= |code|)
    && (forall s, t :: s in spans && t in spans && Before(s, t) ==> s.end <= t.start)
  }

  /** Edits in ascending order, none overlapping the next. */
  ghost predicate Ordered(code: string, edits: seq<Edit>) {
    && (forall i :: 0 <= i < |edits| ==> edits[i].span.start <= edits[i].span.end <= |code|)
    && (forall i, j :: 0 <= i < j < |edits| ==>
          Before(edits[i].span, edits[j].span) && edits[i].span.end <= edits[j].span.start)
  }

  /** The edits of a dictionary in ascending order. */
  ghost predicate Lists(edits: map<Span, string>, listed: seq<Edit>) {
    && (forall i :: 0 <= i < |listed| ==> listed[i].span in edits && edits[listed[i].span] == listed[i].value)
    && (forall s :: s in edits ==> Edit(s, edits[s]) in listed)
    && (forall i, j :: 0 <= i < j < |listed| ==> Before(listed[i].span, listed[j].span))
  }

  /** Simultaneous substitution, read from left to right starting at pos. */
  function Substitute(code: string, edits: seq<Edit>, pos: nat): (r: string)
    requires Ordered(code, edits) && pos <= |code| && (edits != [] ==> pos <= edits[0].span.start)
    decreases |edits|
  {
    if edits == [] then code[pos..]
    else code[pos..edits[0].span.start] + edits[0].value + Substitute(code, edits[1..], edits[0].span.end)
  }

  lemma SliceSplit(code: string, pos: nat, k: nat, end: nat)
    requires pos <= k <= end <= |code|
    ensures code[pos..end] == code[pos..k] + code[k..end]
  {
  }

  lemma Reassociate(a: string, b: string, c: string, d: string)
    ensures (a + b) + c + d == a + (b + c + d)
  {
  }

  lemma {:induction false} SubstitutePrefix(code: string, edits: seq<Edit>, pos: nat, k: nat)
    requires Ordered(code, edits) && pos <= k <= |code| && (edits != [] ==> k <= edits[0].span.start)
    ensures Substitute(code, edits, pos) == code[pos..k] + Substitute(code, edits, k)
  {
    if edits == [] {
      SliceSplit(code, pos, k, |code|);
    } else {
      var first := edits[0];
      SliceSplit(code, pos, k, first.span.start);
      Reassociate(code[pos..k], code[k..first.span.start], first.value, Substitute(code, edits[1..], first.span.end));
    }
  }

  // What simultaneous substitution means, character by character.

  /** By how much an edit lengthens the code. */
  function Growth(edit: Edit): int
    requires edit.span.start <= edit.span.end
  {
    |edit.value| - (edit.span.end - edit.span.start)
  }

  function TotalGrowth(code: string, edits: seq<Edit>): int
    requires Ordered(code, edits)
    decreases |edits|
  {
    if edits == [] then 0 else Growth(edits[0]) + TotalGrowth(code, edits[1..])
  }

  /** Where offset k of the code goes: shifted by the edits that end at or before it. */
  function Moved(code: string, edits: seq<Edit>, k: int): int
    requires Ordered(code, edits)
    decreases |edits|
  {
    if edits == [] || k < edits[0].span.end then k else Growth(edits[0]) + Moved(code, edits[1..], k)
  }

  ghost predicate Outside(edits: seq<Edit>, k: int) {
    forall i :: 0 <= i < |edits| ==> !(edits[i].span.start <= k < edits[i].span.end)
  }

  lemma {:induction false} SubstituteLength(code: string, edits: seq<Edit>, pos: nat)
    requires Ordered(code, edits) && pos <= |code| && (edits != [] ==> pos <= edits[0].span.start)
    ensures |Substitute(code, edits, pos)| == |code| - pos + TotalGrowth(code, edits)
    decreases |edits|
  {
    if edits != [] { SubstituteLength(code, edits[1..], edits[0].span.end); }
  }

  lemma AtOffset(head: string, rest: string, at: int)
    requires 0 <= at < |rest|
    ensures (head + rest)[|head| + at] == rest[at]
  {
  }

  /** The value stands at the given offset of the text. */
  predicate Stands(text: string, at: int, value: string) {
    0 <= at <= at + |value| <= |text| && text[at..at + |value|] == value
  }

  lemma StandsAfter(head: string, rest: string, at: int, value: string)
    requires Stands(rest, at, value)
    ensures Stands(head + rest, |head| + at, value)
  {
    assert (head + rest)[|head| + at..|head| + at + |value|] == rest[at..at + |value|];
  }

  lemma StandsBetween(before: string, value: string, rest: string)
    ensures Stands(before + value + rest, |before|, value)
  {
  }

  lemma InKeptText(code: string, pos: nat, start: nat, value: string, rest: string, k: nat)
    requires pos <= k < start <= |code|
    ensures (code[pos..start] + value + rest)[k - pos] == code[k]
  {
  }

  lemma SubstituteFirst(code: string, edits: seq<Edit>, pos: nat)
    requires Ordered(code, edits) && pos <= |code| && edits != [] && pos <= edits[0].span.start
    ensures Substitute(code, edits, pos) ==
              code[pos..edits[0].span.start] + edits[0].value + Substitute(code, edits[1..], edits[0].span.end)
  {
  }

  /** Every character outside the spans is kept, in its place after the shift. */
  lemma {:induction false} OutsideUnchanged(code: string, edits: seq<Edit>, pos: nat, k: nat)
    requires Ordered(code, edits) && pos <= k < |code| && (edits != [] ==> pos <= edits[0].span.start)
    requires Outside(edits, k)
    ensures var at := Moved(code, edits, k) - pos;
            0 <= at < |Substitute(code, edits, pos)| && Substitute(code, edits, pos)[at] == code[k]
    decreases |edits|
  {
    if edits != [] {
      hide Substitute;
      var first := edits[0];
      var rest := Substitute(code, edits[1..], first.span.end);
      SubstituteFirst(code, edits, pos);
      if k < first.span.end {
        InKeptText(code, pos, first.span.start, first.value, rest, k);
      } else {
        OutsideUnchanged(code, edits[1..], first.span.end, k);
        AtOffset(code[pos..first.span.start] + first.value, rest, Moved(code, edits[1..], k) - first.span.end);
      }
    }
  }

  lemma GrowthBefore(code: string, edits: seq<Edit>, i: nat)
    requires Ordered(code, edits) && 0 < i <= |edits|
    ensures TotalGrowth(code, edits[..i]) == Growth(edits[0]) + TotalGrowth(code, edits[1..][..i - 1])
  {
    assert edits[..i][1..] == edits[1..][..i - 1];
  }

  /** Every value stands where its span was. */
  lemma {:induction false} ValueInPlace(code: string, edits: seq<Edit>, pos: nat, i: nat)
    requires Ordered(code, edits) && pos <= |code| && (edits != [] ==> pos <= edits[0].span.start) && i < |edits|
    ensures Stands(Substitute(code, edits, pos), edits[i].span.start + TotalGrowth(code, edits[..i]) - pos,
                   edits[i].value)
    decreases |edits|
  {
    hide Substitute, Stands;
    var first := edits[0];
    var before, rest := code[pos..first.span.start], Substitute(code, edits[1..], first.span.end);
    SubstituteFirst(code, edits, pos);
    if i > 0 {
      ValueInPlace(code, edits[1..], first.span.end, i - 1);
      GrowthBefore(code, edits, i);
      StandsAfter(before + first.value, rest,
                  edits[i].span.start + TotalGrowth(code, edits[1..][..i - 1]) - first.span.end, edits[i].value);
    } else {
      assert edits[..0] == [];
      StandsBetween(before, first.value, rest);
    }
  }

  // The rewriting loop.

  ghost predicate IsLast(spans: set<Span>, last: Span) {
    last in spans && forall s :: s in spans && s != last ==> Before(s, last)
  }

  lemma {:induction false} LastSpan(spans: set<Span>) returns (last: Span)
    requires spans != {}
    ensures IsLast(spans, last)
  {
    var any :| any in spans;
    var others := spans - {any};
    if others == {} {
      assert spans == {any};
      return any;
    }
    var max := LastSpan(others);
    last := if Before(any, max) then max else any;
    forall s | s in spans && s != last ensures Before(s, last) {
      assert s == any || s in others;
    }
  }

  /** What the loop keeps: the edits taken so far, listed in order, are already substituted. */
  ghost predicate Progress(code: string, edits: map<Span, string>, remaining: set<Span>, listed: seq<Edit>,
                           text: string)
  {
    && remaining <= edits.Keys
    && Ordered(code, listed)
    && text == Substitute(code, listed, 0)
    && (forall s, i :: s in remaining && 0 <= i < |listed| ==> Before(s, listed[i].span))
    && (forall i :: 0 <= i < |listed| ==> listed[i].span in edits && edits[listed[i].span] == listed[i].value)
    && (forall s :: s in edits && s !in remaining ==> Edit(s, edits[s]) in listed)
  }

  lemma OrderedCons(code: string, listed: seq<Edit>, edit: Edit)
    requires Ordered(code, listed) && edit.span.start <= edit.span.end <= |code|
    requires forall i :: 0 <= i < |listed| ==>
               Before(edit.span, listed[i].span) && edit.span.end <= listed[i].span.start
    ensures Ordered(code, [edit] + listed)
  {
  }

  lemma SubstituteCons(code: string, listed: seq<Edit>, text: string, edit: Edit)
    requires Ordered(code, listed) && text == Substitute(code, listed, 0) && Ordered(code, [edit] + listed)
    ensures edit.span.start <= edit.span.end <= |text|
    ensures text[..edit.span.start] + edit.value + text[edit.span.end..] == Substitute(code, [edit] + listed, 0)
  {
    var s, more := edit.span, [edit] + listed;
    assert more[1..] == listed;
    if listed != [] { assert more[0].span.end <= more[1].span.start; }
    SubstitutePrefix(code, listed, 0, s.end);
    assert text == code[..s.end] + Substitute(code, listed, s.end);
    assert text[..s.start] == code[0..s.start];
    assert text[s.end..] == Substitute(code, listed, s.end);
  }

  lemma ProgressStep(code: string, edits: map<Span, string>, remaining: set<Span>, listed: seq<Edit>, text: string,
                     s: Span)
    requires Disjoint(code, edits.Keys) && Progress(code, edits, remaining, listed, text) && IsLast(remaining, s)
    ensures s.end <= |text|
    ensures Progress(code, edits, remaining - {s}, [Edit(s, edits[s])] + listed,
                     text[..s.start] + edits[s] + text[s.end..])
  {
    var edit := Edit(s, edits[s]);
    OrderedCons(code, listed, edit);
    SubstituteCons(code, listed, text, edit);
    var more := [edit] + listed;
    forall t, i | t in remaining - {s} && 0 <= i < |more| ensures Before(t, more[i].span) {
      if i > 0 { assert more[i] == listed[i - 1]; }
    }
    forall t | t in edits && t !in remaining - {s} ensures Edit(t, edits[t]) in more {
      if t == s { assert more[0] == edit; } else { assert Edit(t, edits[t]) in listed; }
    }
  }

  /** The text is the code with all edits of the dictionary substituted at once. */
  ghost predicate Substituted(code: string, edits: map<Span, string>, text: string) {
    exists listed :: Lists(edits, listed) && Ordered(code, listed) && text == Substitute(code, listed, 0)
  }

  lemma ListsFirst(edits: map<Span, string>, a: seq<Edit>, b: seq<Edit>)
    requires Lists(edits, a) && Lists(edits, b) && a != []
    ensures b != [] && a[0] == b[0]
  {
    assert Edit(a[0].span, edits[a[0].span]) in b;
    var j :| 0 <= j < |b| && b[j] == a[0];
    assert Edit(b[0].span, edits[b[0].span]) in a;
    var i :| 0 <= i < |a| && a[i] == b[0];
    assert i > 0 ==> Before(a[0].span, a[i].span);
    assert j > 0 ==> Before(b[0].span, b[j].span);
  }

  lemma ListsRest(edits: map<Span, string>, listed: seq<Edit>)
    requires Lists(edits, listed) && listed != []
    ensures Lists(edits - {listed[0].span}, listed[1..])
  {
    var first, rest := listed[0].span, edits - {listed[0].span};
    forall s | s in rest ensures Edit(s, rest[s]) in listed[1..] {
      var i :| 0 <= i < |listed| && listed[i] == Edit(s, edits[s]);
      assert listed[1..][i - 1] == listed[i];
    }
  }

  lemma SameEmptiness(edits: map<Span, string>, a: seq<Edit>, b: seq<Edit>)
    requires Lists(edits, a) && Lists(edits, b)
    ensures a == [] <==> b == []
  {
    assert a != [] ==> Edit(a[0].span, edits[a[0].span]) in b;
    assert b != [] ==> Edit(b[0].span, edits[b[0].span]) in a;
  }

  /** A dictionary has one ascending listing, so the substitution is determined by code and edits. */
  lemma {:induction false} ListingUnique(edits: map<Span, string>, a: seq<Edit>, b: seq<Edit>)
    requires Lists(edits, a) && Lists(edits, b)
    ensures a == b
    decreases |a|
  {
    SameEmptiness(edits, a, b);
    if a != [] {
      ListsFirst(edits, a, b);
      ListsRest(edits, a);
      ListsRest(edits, b);
      hide Lists;
      ListingUnique(edits - {a[0].span}, a[1..], b[1..]);
      assert a == [a[0]] + a[1..] && b == [b[0]] + b[1..];
    }
  }

  /**
   * Applying the edits in descending order of their spans, each to the text the previous one left,
   * is simultaneous substitution on the original code.
   */
  method RenderCode(code: string, edits: map<Span, string>) returns (text: string)
    requires Disjoint(code, edits.Keys)
    ensures Substituted(code, edits, text)
  {
    text := code;
    ghost var listed: seq<Edit> := [];
    var remaining := edits.Keys;
    while remaining != {}
      invariant Progress(code, edits, remaining, listed, text)
      decreases |remaining|
    {
      ghost var last := LastSpan(remaining);
      var s :| s in remaining && forall t :: t in remaining && t != s ==> Before(t, s);
      ProgressStep(code, edits, remaining, listed, text, s);
      text := text[..s.start] + edits[s] + text[s.end..];
      listed := [Edit(s, edits[s])] + listed;
      remaining := remaining - {s};
    }
    assert Lists(edits, listed);
  }
}
