/** Associating the comments of a script with its statements (`ParsedScript::AssociateDescriptions`). */
module Descriptions {
  import opened Ast
  import opened DescriptionRuns

  // ---------------------------------------------------------------- where a statement's source ends

  ghost predicate InComment(comments: seq<Span>, p: nat) {
    exists k :: 0 <= k < |comments| && comments[k].offset <= p < comments[k].End()
  }

  /** `r` is behind the first semicolon outside comments; without one it is `end`. */
  ghost predicate IsSqlEnd(text: string, comments: seq<Span>, end: nat, nextBegin: nat, r: nat)
    requires nextBegin <= |text|
  {
    && end <= r
    && (forall p: nat :: end <= p < nextBegin && text[p] == ';' && !InComment(comments, p) ==> end < r && r - 1 <= p)
    && (end < r ==> r <= nextBegin && text[r - 1] == ';' && !InComment(comments, r - 1))
  }

  method FindComment(comments: seq<Span>, p: nat) returns (k: nat)
    ensures k <= |comments| && (k == |comments| <==> !InComment(comments, p))
    ensures k < |comments| ==> comments[k].offset <= p < comments[k].End()
  {
    k := 0;
    while k < |comments| && !(comments[k].offset <= p < comments[k].End())
      invariant k <= |comments|
      invariant forall j :: 0 <= j < k ==> !(comments[j].offset <= p < comments[j].End())
    {
      k := k + 1;
    }
  }

  /** Search the semicolon that ends a statement, stepping over comments. */
  method FindSqlEnd(text: string, comments: seq<Span>, end: nat, nextBegin: nat) returns (r: nat)
    requires CommentsValid(text, comments) && nextBegin <= |text|
    ensures IsSqlEnd(text, comments, end, nextBegin, r)
  {
    r := end;
    var cursor := end;
    while cursor < nextBegin
      invariant end <= cursor
      invariant forall p: nat :: end <= p < cursor && p < nextBegin && text[p] == ';' ==> InComment(comments, p)
    {
      var k := FindComment(comments, cursor);
      if k < |comments| {
        forall p: nat | cursor <= p < comments[k].End()
          ensures InComment(comments, p)
        {
          assert comments[k].offset <= p < comments[k].End();
        }
        cursor := comments[k].End();
      } else {
        if text[cursor] == ';' {
          return cursor + 1;
        }
        cursor := cursor + 1;
      }
    }
  }

  method IsDescriptionGap(text: string, begin: nat, end: nat) returns (r: bool)
    requires end <= |text|
    ensures r <==> BlankGap(text, begin, end)
  {
    var i := begin;
    while i < end
      invariant begin <= i && forall j :: begin <= j < i && j < end ==> IsBlank(text[j])
    {
      if !IsBlank(text[i]) {
        return false;
      }
      i := i + 1;
    }
    return true;
  }

  method FindLineBreak(text: string, begin: nat, end: nat) returns (r: bool)
    requires end <= |text|
    ensures r <==> HasLineBreak(text, begin, end)
  {
    var i := begin;
    while i < end
      invariant begin <= i && forall j :: begin <= j < i && j < end ==> !IsLineBreak(text[j])
    {
      if IsLineBreak(text[i]) {
        return true;
      }
      i := i + 1;
    }
    return false;
  }

  method IsLeadingDescriptionCommentGap(text: string, previousEnd: nat, comment: Span) returns (r: bool)
    requires comment.offset <= |text|
    ensures r <==> Leads(text, previousEnd, comment)
  {
    r := IsDescriptionGap(text, previousEnd, comment.offset);
    if r && previousEnd != 0 && comment.offset != 0 {
      r := FindLineBreak(text, previousEnd, comment.offset);
    }
  }

  /** A comment trails what ends at `end` if only blanks and no line break separate them. */
  ghost predicate Trails(text: string, end: nat, comment: Span)
    requires comment.offset <= |text|
  {
    BlankGap(text, end, comment.offset) && !HasLineBreak(text, end, comment.offset)
  }

  /** The comments behind `sqlEnd` up to the `n`-th each trail the one in front, and start before the limit. */
  ghost predicate IsTrailingRun(text: string, comments: seq<Span>, sqlEnd: nat, limit: nat, n: nat)
    requires CommentsValid(text, comments)
  {
    var from := CountBefore(comments, sqlEnd);
    && from <= n <= |comments|
    && forall k: nat :: from <= k < n ==>
         comments[k].offset < limit && Trails(text, EndBefore(comments, from, sqlEnd, k), comments[k])
  }

  /** No longer run of trailing comments exists. */
  ghost predicate IsLongestTrail(text: string, comments: seq<Span>, sqlEnd: nat, limit: nat, n: nat)
    requires CommentsValid(text, comments)
  {
    && IsTrailingRun(text, comments, sqlEnd, limit, n)
    && forall m: nat :: IsTrailingRun(text, comments, sqlEnd, limit, m) ==> m <= n
  }

  /** The source ends behind the longest run of comments that trail `sqlEnd`, or at `sqlEnd` without one. */
  ghost predicate IsSourceEnd(text: string, comments: seq<Span>, sqlEnd: nat, limit: nat, r: nat)
    requires CommentsValid(text, comments)
  {
    exists n: nat ::
      && IsLongestTrail(text, comments, sqlEnd, limit, n)
      && r == EndBefore(comments, CountBefore(comments, sqlEnd), sqlEnd, n)
  }

  lemma {:induction false} TrailContains(text: string, comments: seq<Span>, sqlEnd: nat, limit: nat, m: nat, n: nat)
    requires CommentsValid(text, comments) && IsTrailingRun(text, comments, sqlEnd, limit, m)
    requires CountBefore(comments, sqlEnd) <= n < m
    ensures n < |comments| && comments[n].offset < limit
    ensures Trails(text, EndBefore(comments, CountBefore(comments, sqlEnd), sqlEnd, n), comments[n])
  {
  }

  /** A run that the next comment does not continue is the longest. */
  lemma {:induction false} TrailEnds(text: string, comments: seq<Span>, sqlEnd: nat, limit: nat, n: nat)
    requires CommentsValid(text, comments) && IsTrailingRun(text, comments, sqlEnd, limit, n)
    requires n < |comments| ==>
      comments[n].offset >= limit
      || !Trails(text, EndBefore(comments, CountBefore(comments, sqlEnd), sqlEnd, n), comments[n])
    ensures IsLongestTrail(text, comments, sqlEnd, limit, n)
  {
    forall m: nat | IsTrailingRun(text, comments, sqlEnd, limit, m)
      ensures m <= n
    {
      if n < m {
        TrailContains(text, comments, sqlEnd, limit, m, n);
      }
    }
  }

  /** The comment at which a trailing run stands, and its end, once the first `k` comments were looked at. */
  ghost predicate TrailUpTo(
      text: string, comments: seq<Span>, sqlEnd: nat, limit: nat, k: nat, n: nat, end: nat)
    requires CommentsValid(text, comments)
  {
    var from := CountBefore(comments, sqlEnd);
    && IsTrailingRun(text, comments, sqlEnd, limit, n)
    && end == EndBefore(comments, from, sqlEnd, n)
    && (if k <= from then n == from else n == k || (n < k <= |comments| && comments[n].offset >= limit))
  }

  /** A comment is skipped in front of the end and behind the limit, and no other. */
  lemma {:induction false} TrailSkips(
      text: string, comments: seq<Span>, sqlEnd: nat, limit: nat, k: nat, n: nat, end: nat)
    requires CommentsValid(text, comments) && k < |comments| && TrailUpTo(text, comments, sqlEnd, limit, k, n, end)
    ensures
      if comments[k].offset < end || comments[k].offset >= limit
      then TrailUpTo(text, comments, sqlEnd, limit, k + 1, n, end)
      else n == k >= CountBefore(comments, sqlEnd)
  {
    if n < k {
      OffsetsAscend(text, comments, n, k);
    }
  }

  lemma {:induction false} TrailGoesOn(
      text: string, comments: seq<Span>, sqlEnd: nat, limit: nat, k: nat, end: nat)
    requires CommentsValid(text, comments) && k < |comments| && TrailUpTo(text, comments, sqlEnd, limit, k, k, end)
    requires k >= CountBefore(comments, sqlEnd) && comments[k].offset < limit && Trails(text, end, comments[k])
    ensures TrailUpTo(text, comments, sqlEnd, limit, k + 1, k + 1, comments[k].End())
  {
  }

  lemma {:induction false} TrailStops(
      text: string, comments: seq<Span>, sqlEnd: nat, limit: nat, k: nat, n: nat, end: nat)
    requires CommentsValid(text, comments) && TrailUpTo(text, comments, sqlEnd, limit, k, n, end) && k <= |comments|
    requires k == |comments| || (n == k && !Trails(text, end, comments[k]))
    ensures IsSourceEnd(text, comments, sqlEnd, limit, end)
  {
    TrailEnds(text, comments, sqlEnd, limit, n);
  }

  lemma {:induction false} TrailStarts(text: string, comments: seq<Span>, sqlEnd: nat, limit: nat)
    requires CommentsValid(text, comments)
    ensures TrailUpTo(text, comments, sqlEnd, limit, 0, CountBefore(comments, sqlEnd), sqlEnd)
  {
  }

  /** Skip a comment, extend the trailing run by it, or give up. */
  method ScanTrailing(
      text: string, comments: seq<Span>, ghost sqlEnd: nat, limit: nat, k: nat, ghost n: nat, end: nat)
    returns (stop: bool, newEnd: nat, ghost m: nat)
    requires CommentsValid(text, comments) && k < |comments| && TrailUpTo(text, comments, sqlEnd, limit, k, n, end)
    ensures if stop then IsSourceEnd(text, comments, sqlEnd, limit, newEnd)
            else TrailUpTo(text, comments, sqlEnd, limit, k + 1, m, newEnd)
  {
    stop, newEnd, m := false, end, n;
    TrailSkips(text, comments, sqlEnd, limit, k, n, end);
    if comments[k].offset < end || comments[k].offset >= limit {
      return;
    }
    stop := true;
    var isGap := IsDescriptionGap(text, end, comments[k].offset);
    if isGap {
      stop := FindLineBreak(text, end, comments[k].offset);
    }
    if stop {
      TrailStops(text, comments, sqlEnd, limit, k, k, end);
    } else {
      TrailGoesOn(text, comments, sqlEnd, limit, k, end);
      newEnd, m := comments[k].End(), k + 1;
    }
  }

  method StatementSourceEnd(text: string, sqlEnd: nat, limit: nat, comments: seq<Span>) returns (end: nat)
    requires CommentsValid(text, comments)
    ensures IsSourceEnd(text, comments, sqlEnd, limit, end)
  {
    end := sqlEnd;
    ghost var n: nat := CountBefore(comments, sqlEnd);
    TrailStarts(text, comments, sqlEnd, limit);
    for k := 0 to |comments|
      invariant TrailUpTo(text, comments, sqlEnd, limit, k, n, end)
    {
      var stop;
      stop, end, n := ScanTrailing(text, comments, sqlEnd, limit, k, n, end);
      if stop {
        return;
      }
    }
    TrailStops(text, comments, sqlEnd, limit, |comments|, n, end);
  }

  /** The source end is unique, and it is that of the statement or of a comment in front of the limit. */
  lemma {:induction false} SourceEndUnique(
      text: string, comments: seq<Span>, sqlEnd: nat, limit: nat, r: nat, s: nat)
    requires CommentsValid(text, comments)
    requires IsSourceEnd(text, comments, sqlEnd, limit, r) && IsSourceEnd(text, comments, sqlEnd, limit, s)
    ensures r == s
  {
  }

  lemma {:induction false} SourceEndBounds(text: string, end: nat, limit: nat, comments: seq<Span>, r: nat)
    requires CommentsValid(text, comments) && IsSourceEnd(text, comments, end, limit, r)
    ensures r >= end
    ensures r == end || exists k :: 0 <= k < |comments| && r == comments[k].End() && comments[k].offset < limit
  {
    var from := CountBefore(comments, end);
    var n: nat :| IsLongestTrail(text, comments, end, limit, n) && r == EndBefore(comments, from, end, n);
    if n > from {
      OffsetsAscend(text, comments, from, n - 1);
    }
  }

  // ---------------------------------------------------------------- statement spans

  function NextBegin(text: string, roots: seq<Span>, i: nat): nat {
    if i + 1 < |roots| then roots[i + 1].offset else |text|
  }

  /** A statement's span: its root, its semicolon, and the comments trailing on the line. */
  ghost predicate IsStatementSpan(text: string, comments: seq<Span>, roots: seq<Span>, i: nat, span: Span)
    requires CommentsValid(text, comments) && i < |roots| && NextBegin(text, roots, i) <= |text|
  {
    && span.offset == roots[i].offset
    && exists sqlEnd: nat ::
         && IsSqlEnd(text, comments, roots[i].End(), NextBegin(text, roots, i), sqlEnd)
         && IsSourceEnd(text, comments, sqlEnd, NextBegin(text, roots, i), span.End())
  }

  /** A statement's source ends before the next root. */
  lemma {:induction false} SpanBeforeNext(text: string, comments: seq<Span>, roots: seq<Span>, i: nat, span: Span)
    requires CommentsValid(text, comments) && RootsValid(text, comments, roots)
    requires i < |roots| && IsStatementSpan(text, comments, roots, i, span)
    ensures roots[i].End() <= span.End() <= NextBegin(text, roots, i)
  {
    var limit := NextBegin(text, roots, i);
    var sqlEnd: nat :|
      && IsSqlEnd(text, comments, roots[i].End(), limit, sqlEnd)
      && IsSourceEnd(text, comments, sqlEnd, limit, span.End());
    SourceEndBounds(text, sqlEnd, limit, comments, span.End());
    if i + 1 < |roots| {
      assert NoneStraddles(comments, roots[i + 1].offset);
    }
  }

  method StatementSpan(text: string, comments: seq<Span>, roots: seq<Span>, i: nat) returns (span: Span)
    requires CommentsValid(text, comments) && RootsValid(text, comments, roots) && i < |roots|
    ensures NextBegin(text, roots, i) <= |text| && IsStatementSpan(text, comments, roots, i, span)
  {
    var nextBegin := NextBegin(text, roots, i);
    var sqlEnd := FindSqlEnd(text, comments, roots[i].End(), nextBegin);
    var end := StatementSourceEnd(text, sqlEnd, nextBegin, comments);
    span := Span(roots[i].offset, end - roots[i].offset);
  }

  // ---------------------------------------------------------------- descriptions

  /** Skip the comments within the previous statement. */
  method SkipComments(text: string, comments: seq<Span>, previousEnd: nat, cursor: nat) returns (from: nat)
    requires CommentsValid(text, comments) && cursor <= CountBefore(comments, previousEnd)
    ensures from == CountBefore(comments, previousEnd)
  {
    from := cursor;
    while from < |comments| && comments[from].offset < previousEnd
      invariant cursor <= from <= CountBefore(comments, previousEnd)
    {
      CountAtLeast(text, comments, previousEnd, from);
      from := from + 1;
    }
  }

  /** The longest run among the comments up to `end`, and where the source in front of `end` ends. */
  ghost predicate RunUpTo(
      text: string, comments: seq<Span>, from: nat, previousEnd: nat, begin: nat, end: nat, position: nat)
    requires CommentsValid(text, comments)
  {
    && from <= end <= |comments| && IsLongestRun(text, comments, from, previousEnd, begin, end)
    && position == EndBefore(comments, from, previousEnd, end)
  }

  lemma {:induction false} RunStarts(text: string, comments: seq<Span>, from: nat, previousEnd: nat)
    requires CommentsValid(text, comments) && from <= |comments|
    ensures RunUpTo(text, comments, from, previousEnd, from, from, previousEnd)
  {
  }

  /** Continue the run with one more comment, or give it up. */
  method ScanComment(
      text: string, comments: seq<Span>, ghost from: nat, ghost previousEnd: nat, begin: nat, end: nat, position: nat)
    returns (newBegin: nat, newPosition: nat)
    requires CommentsValid(text, comments) && end < |comments|
    requires RunUpTo(text, comments, from, previousEnd, begin, end, position)
    ensures RunUpTo(text, comments, from, previousEnd, newBegin, end + 1, newPosition)
  {
    LongestRunStep(text, comments, from, previousEnd, begin, end);
    var allowed;
    if end == begin {
      allowed := IsLeadingDescriptionCommentGap(text, position, comments[end]);
    } else {
      allowed := IsDescriptionGap(text, position, comments[end].offset);
    }
    newBegin := if allowed then begin else end + 1;
    newPosition := comments[end].End();
  }

  /** Scan the comments in front of an offset for the longest run, restarting where one breaks. */
  method FindRun(text: string, comments: seq<Span>, from: nat, previousEnd: nat, offset: nat)
    returns (begin: nat, end: nat, position: nat)
    requires CommentsValid(text, comments) && from <= CountBefore(comments, offset)
    ensures end == CountBefore(comments, offset)
    ensures RunUpTo(text, comments, from, previousEnd, begin, end, position)
  {
    begin, end, position := from, from, previousEnd;
    RunStarts(text, comments, from, previousEnd);
    while end < |comments| && comments[end].offset < offset
      invariant end <= CountBefore(comments, offset)
      invariant RunUpTo(text, comments, from, previousEnd, begin, end, position)
    {
      CountAtLeast(text, comments, offset, end);
      begin, position := ScanComment(text, comments, from, previousEnd, begin, end, position);
      end := end + 1;
    }
  }

  /** The comments that describe a statement, and the first comment behind its begin. */
  method Describe(text: string, comments: seq<Span>, previousEnd: nat, cursor: nat, span: Span)
    returns (d: StatementDescription, next: nat)
    requires CommentsValid(text, comments)
    requires cursor <= CountBefore(comments, previousEnd) && previousEnd <= span.offset <= |text|
    ensures d.span == span && IsDescription(text, comments, previousEnd, d)
    ensures next == CountBefore(comments, span.offset)
  {
    var from := SkipComments(text, comments, previousEnd, cursor);
    CountGrows(text, comments, previousEnd, span.offset);
    var begin, end, position := FindRun(text, comments, from, previousEnd, span.offset);
    next := end;
    d := StatementDescription(span, 0, 0);
    if begin < end {
      var adjacent := IsDescriptionGap(text, position, span.offset);
      if adjacent {
        d := StatementDescription(span, begin, end - begin);
      }
    }
    assert IsLongestRun(text, comments, CountBefore(comments, previousEnd), previousEnd, begin, end);
  }

  lemma {:induction false} CountAtLeast(text: string, comments: seq<Span>, offset: nat, k: nat)
    requires CommentsValid(text, comments) && k < |comments| && comments[k].offset < offset
    ensures k < CountBefore(comments, offset)
  {
    var r := CountBefore(comments, offset);
    if r <= k {
      OffsetsAscend(text, comments, r, k);
    }
  }

  lemma {:induction false} CountGrows(text: string, comments: seq<Span>, a: nat, b: nat)
    requires CommentsValid(text, comments) && a <= b
    ensures CountBefore(comments, a) <= CountBefore(comments, b)
  {
    var r := CountBefore(comments, a);
    if r > 0 {
      CountAtLeast(text, comments, b, r - 1);
    }
  }

  ghost predicate DescribedAt(
      text: string, comments: seq<Span>, roots: seq<Span>, ds: seq<StatementDescription>, i: nat)
    requires CommentsValid(text, comments) && RootsValid(text, comments, roots)
    requires i < |ds| <= |roots|
  {
    && IsStatementSpan(text, comments, roots, i, ds[i].span)
    && IsDescription(text, comments, PreviousEnd(ds, i), ds[i])
  }

  ghost predicate Described(text: string, comments: seq<Span>, roots: seq<Span>, ds: seq<StatementDescription>)
    requires CommentsValid(text, comments) && RootsValid(text, comments, roots)
  {
    |ds| <= |roots| && forall i: nat :: i < |ds| ==> DescribedAt(text, comments, roots, ds, i)
  }

  /** The spans of all statements. */
  method StatementSpans(text: string, comments: seq<Span>, roots: seq<Span>) returns (spans: seq<Span>)
    requires CommentsValid(text, comments) && RootsValid(text, comments, roots)
    ensures |spans| == |roots|
    ensures forall k: nat :: k < |roots| ==> SpanAt(text, comments, roots, spans, k)
  {
    spans := [];
    for i := 0 to |roots|
      invariant |spans| == i
      invariant forall k: nat :: k < i ==> SpanAt(text, comments, roots, spans, k)
    {
      var span := StatementSpan(text, comments, roots, i);
      ghost var before := spans;
      spans := spans + [span];
      forall k: nat | k < i
        ensures SpanAt(text, comments, roots, spans, k)
      {
        assert SpanAt(text, comments, roots, before, k) && spans[k] == before[k];
      }
    }
  }

  ghost predicate SpanAt(text: string, comments: seq<Span>, roots: seq<Span>, spans: seq<Span>, k: nat)
    requires CommentsValid(text, comments) && RootsValid(text, comments, roots)
    requires k < |spans| <= |roots|
  {
    IsStatementSpan(text, comments, roots, k, spans[k])
  }

  /** The span of every statement, and the comments that describe it. */
  method AssociateDescriptions(text: string, comments: seq<Span>, roots: seq<Span>)
    returns (metadata: seq<StatementDescription>)
    requires CommentsValid(text, comments) && RootsValid(text, comments, roots)
    ensures |metadata| == |roots| && Described(text, comments, roots, metadata)
  {
    var spans := StatementSpans(text, comments, roots);
    metadata := [];
    var cursor: nat, previousEnd: nat := 0, 0;
    for i := 0 to |roots|
      invariant |metadata| == i && Described(text, comments, roots, metadata)
      invariant previousEnd == PreviousEnd(metadata, i)
      invariant cursor <= CountBefore(comments, previousEnd)
    {
      PreviousBeforeRoot(text, comments, roots, metadata);
      assert SpanAt(text, comments, roots, spans, i);
      var d, next := Describe(text, comments, previousEnd, cursor, spans[i]);
      DescribedGrows(text, comments, roots, metadata, d);
      CountGrows(text, comments, d.span.offset, d.span.End());
      metadata := metadata + [d];
      cursor, previousEnd := next, d.span.End();
    }
  }

  lemma {:induction false} PreviousBeforeRoot(
      text: string, comments: seq<Span>, roots: seq<Span>, ds: seq<StatementDescription>)
    requires CommentsValid(text, comments) && RootsValid(text, comments, roots)
    requires Described(text, comments, roots, ds) && |ds| < |roots|
    ensures PreviousEnd(ds, |ds|) <= roots[|ds|].offset
  {
    if |ds| > 0 {
      var last: nat := |ds| - 1;
      SpanBounds(text, comments, roots, ds, last);
      assert NextBegin(text, roots, last) == roots[last + 1].offset;
    }
  }

  /** A description depends on its statement and the one in front. */
  lemma {:induction false} DescribedStays(
      text: string, comments: seq<Span>, roots: seq<Span>, ds: seq<StatementDescription>,
      all: seq<StatementDescription>, i: nat)
    requires CommentsValid(text, comments) && RootsValid(text, comments, roots)
    requires i < |ds| <= |all| <= |roots| && all[i] == ds[i] && (i > 0 ==> all[i - 1] == ds[i - 1])
    requires DescribedAt(text, comments, roots, ds, i)
    ensures DescribedAt(text, comments, roots, all, i)
  {
    assert PreviousEnd(all, i) == PreviousEnd(ds, i);
  }

  lemma {:induction false} DescribedGrows(
      text: string, comments: seq<Span>, roots: seq<Span>, ds: seq<StatementDescription>, d: StatementDescription)
    requires CommentsValid(text, comments) && RootsValid(text, comments, roots)
    requires Described(text, comments, roots, ds) && |ds| < |roots|
    requires IsStatementSpan(text, comments, roots, |ds|, d.span)
    requires d.span.offset <= |text| && IsDescription(text, comments, PreviousEnd(ds, |ds|), d)
    ensures Described(text, comments, roots, ds + [d])
  {
    var all := ds + [d];
    forall i: nat | i < |all|
      ensures DescribedAt(text, comments, roots, all, i)
    {
      if i < |ds| {
        assert DescribedAt(text, comments, roots, ds, i);
        DescribedStays(text, comments, roots, ds, all, i);
      } else {
        assert PreviousEnd(all, i) == PreviousEnd(ds, i) && all[i] == d;
      }
    }
  }

  lemma {:induction false} DescribedSpan(
      text: string, comments: seq<Span>, roots: seq<Span>, ds: seq<StatementDescription>, i: nat)
    requires CommentsValid(text, comments) && RootsValid(text, comments, roots)
    requires i < |ds| <= |roots| && DescribedAt(text, comments, roots, ds, i)
    ensures IsStatementSpan(text, comments, roots, i, ds[i].span) && ds[i].span.offset == roots[i].offset
  {
  }

  /** A statement's span begins with its root and ends before the next one. */
  lemma {:induction false} SpanBounds(
      text: string, comments: seq<Span>, roots: seq<Span>, ds: seq<StatementDescription>, i: nat)
    requires CommentsValid(text, comments) && RootsValid(text, comments, roots)
    requires Described(text, comments, roots, ds) && i < |ds|
    ensures ds[i].span.offset == roots[i].offset
    ensures roots[i].End() <= ds[i].span.End() <= NextBegin(text, roots, i)
  {
    assert DescribedAt(text, comments, roots, ds, i);
    DescribedSpan(text, comments, roots, ds, i);
    SpanBeforeNext(text, comments, roots, i, ds[i].span);
  }

  /** Statement spans are ordered and disjoint, and contain their roots. */
  lemma {:induction false} SpansOrdered(
      text: string, comments: seq<Span>, roots: seq<Span>, ds: seq<StatementDescription>, i: nat, j: nat)
    requires CommentsValid(text, comments) && RootsValid(text, comments, roots)
    requires Described(text, comments, roots, ds) && i < j < |ds|
    ensures ds[i].span.offset == roots[i].offset && roots[i].End() <= ds[i].span.End()
    ensures ds[i].span.End() <= ds[j].span.offset
  {
    SpanBounds(text, comments, roots, ds, i);
    SpanBounds(text, comments, roots, ds, j);
    assert i + 1 < j ==> roots[i + 1].End() <= roots[j].offset;
  }

  lemma {:induction false} PreviousEndAfter(
      text: string, comments: seq<Span>, roots: seq<Span>, ds: seq<StatementDescription>, i: nat, j: nat)
    requires CommentsValid(text, comments) && RootsValid(text, comments, roots)
    requires Described(text, comments, roots, ds) && i < j < |ds|
    ensures ds[i].span.End() <= PreviousEnd(ds, j)
  {
    if i < j - 1 {
      SpansOrdered(text, comments, roots, ds, i, j - 1);
    }
  }

  lemma {:induction false} DescriptionOf(
      text: string, comments: seq<Span>, roots: seq<Span>, ds: seq<StatementDescription>, i: nat)
    requires CommentsValid(text, comments) && RootsValid(text, comments, roots)
    requires Described(text, comments, roots, ds) && i < |ds|
    ensures ds[i].span.offset <= |text| && NoneStraddles(comments, ds[i].span.offset)
    ensures IsDescription(text, comments, PreviousEnd(ds, i), ds[i])
  {
    assert DescribedAt(text, comments, roots, ds, i);
    assert roots[i].End() <= |text| && NoneStraddles(comments, roots[i].offset);
  }

  /** No comment describes two statements. */
  lemma {:induction false} NoSharedComment(
      text: string, comments: seq<Span>, roots: seq<Span>, ds: seq<StatementDescription>, i: nat, j: nat)
    requires CommentsValid(text, comments) && RootsValid(text, comments, roots)
    requires Described(text, comments, roots, ds) && i < j < |ds|
    requires ds[i].count > 0 && ds[j].count > 0
    ensures ds[i].begin + ds[i].count <= ds[j].begin
  {
    DescriptionOf(text, comments, roots, ds, i);
    DescriptionOf(text, comments, roots, ds, j);
    PreviousEndAfter(text, comments, roots, ds, i, j);
    DescriptionsDisjoint(text, comments, PreviousEnd(ds, i), ds[i], PreviousEnd(ds, j), ds[j]);
  }

  /**
    A description lies wholly between the previous statement's source and its statement; only blanks and
    semicolons separate its comments; the first one starts the text or follows a line break.
  */
  lemma {:induction false} DescriptionsAdjacent(
      text: string, comments: seq<Span>, roots: seq<Span>, ds: seq<StatementDescription>, i: nat)
    requires CommentsValid(text, comments) && RootsValid(text, comments, roots)
    requires Described(text, comments, roots, ds) && i < |ds| && ds[i].count > 0
    ensures ds[i].begin + ds[i].count <= |comments| && ds[i].span.offset <= |text|
    ensures PreviousEnd(ds, i) <= comments[ds[i].begin].offset
    ensures comments[ds[i].begin + ds[i].count - 1].End() <= ds[i].span.offset
    ensures forall k :: ds[i].begin < k < ds[i].begin + ds[i].count ==>
      BlankGap(text, comments[k - 1].End(), comments[k].offset)
    ensures BlankGap(text, comments[ds[i].begin + ds[i].count - 1].End(), ds[i].span.offset)
    ensures
      var first := comments[ds[i].begin].offset;
      BlankGap(text, 0, first) || exists p: nat :: p < first && text[p] in LINE_BREAKS && BlankGap(text, p, first)
  {
    DescriptionOf(text, comments, roots, ds, i);
    DescriptionIsAdjacent(text, comments, PreviousEnd(ds, i), ds[i]);
  }
}
