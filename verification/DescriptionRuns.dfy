/** Which comments describe a statement: the longest run of comments in front of it. */
module DescriptionRuns {
  import opened Ast

  /** What may stand between a comment and the statement that it describes. */
  const BLANKS: set<char> := {' ', '\t', '\n', '\r', 12 as char, ';'}
  const LINE_BREAKS: set<char> := {'\n', '\r'}

  predicate IsBlank(c: char) {
    c == ' ' || c == '\t' || c == '\n' || c == '\r' || c == 12 as char || c == ';'
  }

  predicate IsLineBreak(c: char) {
    c == '\n' || c == '\r'
  }

  /** Only blanks and semicolons between two offsets. */
  ghost predicate BlankGap(text: string, begin: nat, end: nat)
    requires end <= |text|
  {
    forall i :: begin <= i < end ==> text[i] in BLANKS
  }

  ghost predicate HasLineBreak(text: string, begin: nat, end: nat)
    requires end <= |text|
  {
    exists i :: begin <= i < end && text[i] in LINE_BREAKS
  }

  /** May the comment be the first of a description, after what ends at `previousEnd`? */
  ghost predicate Leads(text: string, previousEnd: nat, comment: Span)
    requires comment.offset <= |text|
  {
    && BlankGap(text, previousEnd, comment.offset)
    && (previousEnd == 0 || comment.offset == 0 || HasLineBreak(text, previousEnd, comment.offset))
  }

  /** Comments are not empty, come in order, and lie within the text. */
  ghost predicate CommentsValid(text: string, comments: seq<Span>) {
    && (forall k :: 0 <= k < |comments| ==> comments[k].length > 0 && comments[k].End() <= |text|)
    && (forall j, k :: 0 <= j < k < |comments| ==> comments[j].End() <= comments[k].offset)
  }

  /** Where the source in front of comment `k` ends, if the comments from `from` on follow `cursor`. */
  function EndBefore(comments: seq<Span>, from: nat, cursor: nat, k: nat): nat
    requires from <= k <= |comments|
  {
    if k == from then cursor else comments[k - 1].End()
  }

  /** The comments from `b` to `to` can describe what follows them. */
  ghost predicate IsCommentRun(text: string, comments: seq<Span>, from: nat, cursor: nat, b: nat, to: nat)
    requires CommentsValid(text, comments) && to <= |comments|
  {
    && from <= b < to
    && Leads(text, EndBefore(comments, from, cursor, b), comments[b])
    && forall k :: b < k < to ==> BlankGap(text, comments[k - 1].End(), comments[k].offset)
  }

  /** `b` begins the longest run that ends at `to`; there is none if `b` is `to`. */
  ghost predicate IsLongestRun(text: string, comments: seq<Span>, from: nat, cursor: nat, b: nat, to: nat)
    requires CommentsValid(text, comments) && to <= |comments|
  {
    && from <= b <= to
    && (b < to ==> IsCommentRun(text, comments, from, cursor, b, to))
    && forall x :: from <= x < b ==> !IsCommentRun(text, comments, from, cursor, x, to)
  }

  ghost predicate Allowed(text: string, comments: seq<Span>, from: nat, cursor: nat, b: nat, to: nat)
    requires CommentsValid(text, comments) && from <= b <= to < |comments|
  {
    var end := EndBefore(comments, from, cursor, to);
    if b == to then Leads(text, end, comments[to]) else BlankGap(text, end, comments[to].offset)
  }

  /** Runs that start before the last comment are runs without it, with a blank gap in front of it. */
  lemma {:induction false} RunGrows(text: string, comments: seq<Span>, from: nat, cursor: nat, b: nat, to: nat)
    requires CommentsValid(text, comments) && from <= b < to < |comments|
    ensures IsCommentRun(text, comments, from, cursor, b, to + 1) <==>
      IsCommentRun(text, comments, from, cursor, b, to) && BlankGap(text, comments[to - 1].End(), comments[to].offset)
  {
  }

  /** Scanning one more comment either continues the run or gives it up. */
  lemma {:induction false} LongestRunStep(text: string, comments: seq<Span>, from: nat, cursor: nat, b: nat, to: nat)
    requires CommentsValid(text, comments) && to < |comments|
    requires IsLongestRun(text, comments, from, cursor, b, to)
    ensures IsLongestRun(text, comments, from, cursor,
              if Allowed(text, comments, from, cursor, b, to) then b else to + 1, to + 1)
  {
    var isAllowed := Allowed(text, comments, from, cursor, b, to);
    var end := to + 1;
    var next := if isAllowed then b else end;
    LastAlone(text, comments, from, cursor, to);
    if isAllowed && b < to {
      RunGrows(text, comments, from, cursor, b, to);
    }
    forall x: nat | from <= x < next
      ensures !IsCommentRun(text, comments, from, cursor, x, end)
    {
      if x < to {
        RunGrows(text, comments, from, cursor, x, to);
      }
    }
  }

  lemma {:induction false} LastAlone(text: string, comments: seq<Span>, from: nat, cursor: nat, to: nat)
    requires CommentsValid(text, comments) && from <= to < |comments|
    ensures IsCommentRun(text, comments, from, cursor, to, to + 1) <==>
      Leads(text, EndBefore(comments, from, cursor, to), comments[to])
  {
  }

  // ---------------------------------------------------------------- comments before an offset

  /** The number of comments that start before an offset. */
  function CountBefore(comments: seq<Span>, offset: nat): (r: nat)
    ensures r <= |comments|
    ensures forall k :: 0 <= k < r ==> comments[k].offset < offset
    ensures r < |comments| ==> comments[r].offset >= offset
  {
    CountFrom(comments, offset, 0)
  }

  /** The first comment that does not start before an offset, if the first `k` do. */
  function CountFrom(comments: seq<Span>, offset: nat, k: nat): (r: nat)
    requires k <= |comments| && forall j :: 0 <= j < k ==> comments[j].offset < offset
    ensures k <= r <= |comments|
    ensures forall j :: 0 <= j < r ==> comments[j].offset < offset
    ensures r < |comments| ==> comments[r].offset >= offset
    decreases |comments| - k
  {
    if k == |comments| || comments[k].offset >= offset then k else CountFrom(comments, offset, k + 1)
  }

  lemma {:induction false} OffsetsAscend(text: string, comments: seq<Span>, j: nat, k: nat)
    requires CommentsValid(text, comments) && j <= k < |comments|
    ensures comments[j].offset <= comments[k].offset
  {
    assert j < k ==> comments[j].End() <= comments[k].offset;
  }

  // ---------------------------------------------------------------- what describes a statement

  datatype StatementDescription = StatementDescription(span: Span, begin: nat, count: nat)

  /** The comments between the previous statement's source and this one; the longest run describes it. */
  ghost predicate IsDescription(text: string, comments: seq<Span>, previousEnd: nat, d: StatementDescription)
    requires CommentsValid(text, comments) && d.span.offset <= |text|
  {
    var from, to := CountBefore(comments, previousEnd), CountBefore(comments, d.span.offset);
    exists b: nat ::
      && IsLongestRun(text, comments, from, previousEnd, b, to)
      && (if b < to && BlankGap(text, comments[to - 1].End(), d.span.offset)
          then d.begin == b && d.count == to - b
          else d.count == 0)
  }

  /** No comment straddles the begin or the end of a root. */
  ghost predicate NoneStraddles(comments: seq<Span>, offset: nat) {
    forall k :: 0 <= k < |comments| ==> !(comments[k].offset < offset < comments[k].End())
  }

  ghost predicate RootsValid(text: string, comments: seq<Span>, roots: seq<Span>) {
    && (forall i :: 0 <= i < |roots| ==> roots[i].End() <= |text|)
    && (forall i, j :: 0 <= i < j < |roots| ==> roots[i].End() <= roots[j].offset)
    && (forall i :: 0 <= i < |roots| ==>
          NoneStraddles(comments, roots[i].offset) && NoneStraddles(comments, roots[i].End()))
  }

  /** Where the comments of statement `i` may begin. */
  function PreviousEnd(ds: seq<StatementDescription>, i: nat): nat
    requires i <= |ds|
  {
    if i == 0 then 0 else ds[i - 1].span.End()
  }

  // ---------------------------------------------------------------- consequences

  /**
    The comments of a description lie between the previous statement's source and the statement, only
    blanks and semicolons separate them from each other and from the statement, and the first one starts
    the text or follows a line break.
  */
  lemma {:induction false} DescriptionIsAdjacent(
      text: string, comments: seq<Span>, previousEnd: nat, d: StatementDescription)
    requires CommentsValid(text, comments) && d.span.offset <= |text|
    requires NoneStraddles(comments, d.span.offset)
    requires IsDescription(text, comments, previousEnd, d) && d.count > 0
    ensures d.begin + d.count <= |comments|
    ensures previousEnd <= comments[d.begin].offset && comments[d.begin + d.count - 1].End() <= d.span.offset
    ensures forall k :: d.begin < k < d.begin + d.count ==> BlankGap(text, comments[k - 1].End(), comments[k].offset)
    ensures BlankGap(text, comments[d.begin + d.count - 1].End(), d.span.offset)
    ensures
      var first := comments[d.begin].offset;
      BlankGap(text, 0, first) || exists p: nat :: p < first && text[p] in LINE_BREAKS && BlankGap(text, p, first)
  {
    var from, to := CountBefore(comments, previousEnd), CountBefore(comments, d.span.offset);
    var b := d.begin;
    assert IsLongestRun(text, comments, from, previousEnd, b, to) && to == b + d.count;
    assert comments[from].offset >= previousEnd;
    assert b == from || comments[from].End() <= comments[b].offset;
    var end, first := EndBefore(comments, from, previousEnd, b), comments[b].offset;
    assert Leads(text, end, comments[b]);
    if HasLineBreak(text, end, first) {
      var p :| end <= p < first && text[p] in LINE_BREAKS;
      assert BlankGap(text, p, first);
    } else {
      assert BlankGap(text, 0, first);
    }
  }

  /** No comment describes two statements. */
  lemma {:induction false} DescriptionsDisjoint(
      text: string, comments: seq<Span>, e: nat, d: StatementDescription, f: nat, g: StatementDescription)
    requires CommentsValid(text, comments) && d.span.offset <= |text| && g.span.offset <= |text|
    requires NoneStraddles(comments, d.span.offset) && NoneStraddles(comments, g.span.offset)
    requires IsDescription(text, comments, e, d) && IsDescription(text, comments, f, g)
    requires d.span.End() <= f && d.count > 0 && g.count > 0
    ensures d.begin + d.count <= g.begin
  {
    DescriptionIsAdjacent(text, comments, e, d);
    DescriptionIsAdjacent(text, comments, f, g);
    var last: nat := d.begin + d.count - 1;
    if g.begin <= last {
      OffsetsAscend(text, comments, g.begin, last);
    }
  }
}
