/** Lists of text spans: sorting, coalescing, and the positions they cover. */
module Spans {
  import opened Ast
  import opened Collections

  ghost predicate Covers(spans: seq<Span>, pos: nat) {
    exists k :: 0 <= k < |spans| && spans[k].offset <= pos < spans[k].End()
  }

  ghost predicate SameCover(a: seq<Span>, b: seq<Span>) {
    forall pos: nat :: Covers(a, pos) <==> Covers(b, pos)
  }

  ghost predicate NonEmpty(spans: seq<Span>) {
    forall k :: 0 <= k < |spans| ==> spans[k].length > 0
  }

  ghost predicate SortedByOffset(spans: seq<Span>) {
    forall j, k :: 0 <= j < k < |spans| ==> spans[j].offset <= spans[k].offset
  }

  /** Consecutive spans are separated by at least one uncovered position. */
  ghost predicate Separated(spans: seq<Span>) {
    forall j, k :: 0 <= j < k < |spans| ==> spans[j].End() < spans[k].offset
  }

  /** A minimal description of a set of positions. */
  ghost predicate Coalesced(spans: seq<Span>) {
    NonEmpty(spans) && Separated(spans)
  }

  // ---------------------------------------------------------------- sorting

  lemma {:induction false} InsertedAt(sorted: seq<Span>, i: nat, x: Span)
    requires SortedByOffset(sorted) && i <= |sorted|
    requires i > 0 ==> sorted[i - 1].offset <= x.offset
    requires forall k :: i <= k < |sorted| ==> x.offset <= sorted[k].offset
    ensures SortedByOffset(sorted[..i] + [x] + sorted[i..])
  {
    assert forall j :: 0 <= j < i ==> sorted[j].offset <= x.offset;
  }

  method InsertByOffset(sorted: seq<Span>, x: Span) returns (r: seq<Span>)
    requires SortedByOffset(sorted)
    ensures SortedByOffset(r)
    ensures multiset(r) == multiset(sorted) + multiset{x}
  {
    var i := |sorted|;
    while i > 0 && sorted[i - 1].offset > x.offset
      invariant 0 <= i <= |sorted|
      invariant forall k :: i <= k < |sorted| ==> sorted[k].offset > x.offset
    {
      i := i - 1;
    }
    r := sorted[..i] + [x] + sorted[i..];
    InsertedAt(sorted, i, x);
    InsertedElements(sorted, i, x);
  }

  /** Some order by offset; the relative order of spans with one offset is left open. */
  method SortByOffset(spans: seq<Span>) returns (r: seq<Span>)
    ensures SortedByOffset(r)
    ensures multiset(r) == multiset(spans)
  {
    r := [];
    for i := 0 to |spans|
      invariant SortedByOffset(r)
      invariant multiset(r) == multiset(spans[..i])
    {
      r := InsertByOffset(r, spans[i]);
      assert spans[..i + 1] == spans[..i] + [spans[i]];
    }
    assert spans[..|spans|] == spans;
  }

  lemma {:induction false} PermutationCovers(a: seq<Span>, b: seq<Span>)
    requires multiset(a) == multiset(b)
    ensures SameCover(a, b)
    ensures NonEmpty(a) ==> NonEmpty(b)
  {
    forall pos: nat
      ensures Covers(a, pos) <==> Covers(b, pos)
    {
      if Covers(a, pos) {
        var k :| 0 <= k < |a| && a[k].offset <= pos < a[k].End();
        assert a[k] in multiset(b);
      }
      if Covers(b, pos) {
        var k :| 0 <= k < |b| && b[k].offset <= pos < b[k].End();
        assert b[k] in multiset(a);
      }
    }
    forall k | 0 <= k < |b| && NonEmpty(a)
      ensures b[k].length > 0
    {
      assert b[k] in multiset(a);
    }
  }

  // ---------------------------------------------------------------- coalescing

  lemma {:induction false} CoversAppend(a: seq<Span>, x: Span, pos: nat)
    ensures Covers(a + [x], pos) <==> Covers(a, pos) || x.offset <= pos < x.End()
  {
    if Covers(a + [x], pos) {
      var k :| 0 <= k < |a| + 1 && (a + [x])[k].offset <= pos < (a + [x])[k].End();
      assert k < |a| ==> a[k].offset <= pos < a[k].End();
    }
    if Covers(a, pos) {
      var k :| 0 <= k < |a| && a[k].offset <= pos < a[k].End();
      assert (a + [x])[k] == a[k];
    }
    if x.offset <= pos < x.End() {
      assert (a + [x])[|a|] == x;
    }
  }

  /** One step of coalescing: `x` starts within or right behind the last span, or behind a gap. */
  method Absorb(coalesced: seq<Span>, x: Span) returns (r: seq<Span>)
    requires coalesced != [] && Coalesced(coalesced)
    requires x.length > 0 && coalesced[|coalesced| - 1].offset <= x.offset
    ensures r != [] && Coalesced(r) && r[|r| - 1].offset <= x.offset
    ensures SameCover(r, coalesced + [x])
  {
    var front, last := coalesced[..|coalesced| - 1], coalesced[|coalesced| - 1];
    SplitLast(coalesced);
    var lastEnd := last.End();
    if x.offset <= lastEnd {
      var newEnd := if lastEnd > x.End() then lastEnd else x.End();
      var merged := Span(last.offset, newEnd - last.offset);
      r := front + [merged];
      forall pos: nat
        ensures Covers(r, pos) <==> Covers(coalesced + [x], pos)
      {
        CoversAppend(front, merged, pos);
        CoversAppend(front, last, pos);
        CoversAppend(coalesced, x, pos);
      }
    } else {
      r := coalesced + [x];
    }
  }

  /** Sort and coalesce overlapping or adjacent spans into a minimal list. */
  method Coalesce(changes: seq<Span>) returns (r: seq<Span>)
    requires NonEmpty(changes)
    ensures Coalesced(r) && SameCover(r, changes)
  {
    if |changes| <= 1 {
      return changes;
    }
    var sorted := SortByOffset(changes);
    PermutationCovers(changes, sorted);
    assert |multiset(sorted)| == |multiset(changes)|;
    r := [sorted[0]];
    assert sorted[..1] == [sorted[0]];
    for k := 1 to |sorted|
      invariant r != [] && Coalesced(r) && r[|r| - 1].offset <= sorted[k - 1].offset
      invariant SameCover(r, sorted[..k])
    {
      var next := Absorb(r, sorted[k]);
      forall pos: nat
        ensures Covers(next, pos) <==> Covers(sorted[..k + 1], pos)
      {
        CoversAppend(r, sorted[k], pos);
        CoversAppend(sorted[..k], sorted[k], pos);
        assert sorted[..k + 1] == sorted[..k] + [sorted[k]];
      }
      r := next;
    }
    assert sorted[..|sorted|] == sorted;
  }

  // ---------------------------------------------------------------- a coalesced list is determined by its cover

  lemma {:induction false} FirstCovered(spans: seq<Span>, pos: nat)
    requires Coalesced(spans) && spans != []
    requires Covers(spans, pos)
    ensures spans[0].offset <= pos && (pos < spans[0].End() || (|spans| > 1 && spans[1].offset <= pos))
  {
    var k :| 0 <= k < |spans| && spans[k].offset <= pos < spans[k].End();
    if k > 1 { assert spans[1].End() < spans[k].offset; }
  }

  lemma {:induction false} GapBehindFirst(spans: seq<Span>)
    requires Coalesced(spans) && spans != []
    ensures !Covers(spans, spans[0].End())
    ensures forall pos: nat :: pos < spans[0].offset ==> !Covers(spans, pos)
    ensures forall pos: nat :: spans[0].offset <= pos < spans[0].End() ==> Covers(spans, pos)
  {
    forall pos: nat | Covers(spans, pos)
      ensures spans[0].offset <= pos && pos != spans[0].End()
    {
      FirstCovered(spans, pos);
      if |spans| > 1 { assert spans[0].End() < spans[1].offset; }
    }
  }

  lemma {:induction false} TailCovers(spans: seq<Span>, pos: nat)
    requires Coalesced(spans) && spans != []
    ensures Covers(spans[1..], pos) <==> Covers(spans, pos) && pos >= spans[0].End()
  {
    if Covers(spans[1..], pos) {
      var k :| 0 <= k < |spans| - 1 && spans[1..][k].offset <= pos < spans[1..][k].End();
      assert spans[k + 1] == spans[1..][k];
    }
    if Covers(spans, pos) && pos >= spans[0].End() {
      var k :| 0 <= k < |spans| && spans[k].offset <= pos < spans[k].End();
      assert spans[1..][k - 1] == spans[k];
    }
  }

  lemma {:induction false} FirstSpansEqual(a: seq<Span>, b: seq<Span>)
    requires Coalesced(a) && Coalesced(b) && SameCover(a, b) && a != [] && b != []
    ensures a[0] == b[0]
  {
    GapBehindFirst(a);
    GapBehindFirst(b);
    assert Covers(b, b[0].offset) && Covers(a, a[0].offset);
    assert a[0].offset == b[0].offset;
    var aEnd, bEnd := a[0].End(), b[0].End();
    assert aEnd < bEnd ==> Covers(b, aEnd);
    assert bEnd < aEnd ==> Covers(a, bEnd);
  }

  /** Two coalesced lists with one cover are the same list. */
  lemma {:induction false} CoalescedUnique(a: seq<Span>, b: seq<Span>)
    requires Coalesced(a) && Coalesced(b) && SameCover(a, b)
    ensures a == b
  {
    assert a != [] ==> Covers(a, a[0].offset);
    assert b != [] ==> Covers(b, b[0].offset);
    if a != [] && b != [] {
      FirstSpansEqual(a, b);
      forall pos: nat
        ensures Covers(a[1..], pos) <==> Covers(b[1..], pos)
      {
        TailCovers(a, pos);
        TailCovers(b, pos);
      }
      CoalescedUnique(a[1..], b[1..]);
      assert a == [a[0]] + a[1..] && b == [b[0]] + b[1..];
    }
  }
}
