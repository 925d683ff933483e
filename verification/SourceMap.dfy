/**
  The mappings of a source map: written as comma-separated segments of deltas, and read back by the
  decoder of ECMA-426, section "Mappings structure".
*/
module SourceMaps {
  import opened Collections
  import opened NameTables
  import opened Vlq

  /** A line table entry; `source` is the resolved name of its file. */
  datatype Entry = Entry(address: int, line: nat, column: nat, source: string)

  /** A decoded mapping; lines and columns count from zero. */
  datatype Position = Position(generated: int, source: int, line: int, column: int)

  const ORIGIN := Position(0, 0, 0, 0)

  const FIELDS := 4

  datatype SourceMap = SourceMap(sources: seq<string>, mappings: string)

  // ---------------------------------------------------------------- decoding

  function SplitCommas(text: string): (r: seq<string>)
    ensures |r| > 0
  {
    if text == "" then [""]
    else if text[0] == ',' then [""] + SplitCommas(text[1..])
    else
      var r := SplitCommas(text[1..]);
      [[text[0]] + r[0]] + r[1..]
  }

  function ReadFields(text: string): Option<seq<int>>
    decreases |text|
  {
    if text == "" then Some([])
    else
      match ReadVlq(text)
      case None => None
      case Some(read) =>
        match ReadFields(read.rest)
        case None => None
        case Some(fields) => Some([read.value] + fields)
  }

  /** The fields of every segment. */
  function ReadRows(segments: seq<string>): (r: Option<seq<seq<int>>>)
    ensures r.Some? ==> forall k :: 0 <= k < |r.value| ==> |r.value[k]| == FIELDS
  {
    if segments == [] then Some([])
    else
      match ReadFields(segments[0])
      case None => None
      case Some(fields) =>
        if |fields| != FIELDS then None
        else
          match ReadRows(segments[1..])
          case None => None
          case Some(rows) => Some([fields] + rows)
  }

  function Moved(last: Position, row: seq<int>): Position
    requires |row| == FIELDS
  {
    Position(last.generated + row[0], last.source + row[1], last.line + row[2], last.column + row[3])
  }

  /** Every segment is relative to the one before. */
  function PrefixSums(rows: seq<seq<int>>, last: Position): seq<Position>
    requires forall k :: 0 <= k < |rows| ==> |rows[k]| == FIELDS
  {
    if rows == [] then [] else [Moved(last, rows[0])] + PrefixSums(rows[1..], Moved(last, rows[0]))
  }

  function Decode(mappings: string): Option<seq<Position>> {
    if mappings == "" then Some([])
    else
      match ReadRows(SplitCommas(mappings))
      case None => None
      case Some(rows) => Some(PrefixSums(rows, ORIGIN))
  }

  // ---------------------------------------------------------------- what is written

  function Deltas(last: Position, p: Position): (r: seq<int>)
    ensures |r| == FIELDS
  {
    [p.generated - last.generated, p.source - last.source, p.line - last.line, p.column - last.column]
  }

  /** The deltas of each position against the one before. */
  function Rows(ps: seq<Position>, last: Position): (r: seq<seq<int>>)
    ensures |r| == |ps| && forall k :: 0 <= k < |r| ==> |r[k]| == FIELDS
  {
    if ps == [] then [] else [Deltas(last, ps[0])] + Rows(ps[1..], ps[0])
  }

  function LastOf(ps: seq<Position>, last: Position): Position {
    if ps == [] then last else ps[|ps| - 1]
  }

  function EncodedRow(row: seq<int>): string {
    if row == [] then "" else EncodedRow(row[..|row| - 1]) + Encoded(row[|row| - 1])
  }

  function EncodedRows(rows: seq<seq<int>>): (r: seq<string>)
    ensures |r| == |rows| && forall k :: 0 <= k < |r| ==> r[k] == EncodedRow(rows[k])
  {
    seq(|rows|, k requires 0 <= k < |rows| => EncodedRow(rows[k]))
  }

  function Join(segments: seq<string>): string {
    if segments == [] then ""
    else if |segments| == 1 then segments[0]
    else segments[0] + "," + Join(segments[1..])
  }

  // ---------------------------------------------------------------- the round trip

  lemma {:induction false} ReadField(n: int, rest: string, fields: seq<int>)
    requires ReadFields(rest) == Some(fields)
    ensures ReadFields(Encoded(n) + rest) == Some([n] + fields)
  {
    VlqRoundTrip(n, rest);
    EncodedHasNoComma(n);
    ReadFirst(Encoded(n) + rest, n, rest, fields);
  }

  lemma {:induction false} ReadFirst(text: string, n: int, rest: string, fields: seq<int>)
    requires text != "" && ReadVlq(text) == Some(Read(n, rest)) && ReadFields(rest) == Some(fields)
    ensures ReadFields(text) == Some([n] + fields)
  {
  }

  lemma {:induction false} ReadRow(row: seq<int>, rest: string, fields: seq<int>)
    requires ReadFields(rest) == Some(fields)
    ensures ReadFields(EncodedRow(row) + rest) == Some(row + fields)
    decreases |row|
  {
    if row == [] {
      assert EncodedRow(row) + rest == rest && row + fields == fields;
    } else {
      var front, n := row[..|row| - 1], row[|row| - 1];
      ReadField(n, rest, fields);
      ReadRow(front, Encoded(n) + rest, [n] + fields);
      Associative(EncodedRow(front), Encoded(n), rest);
      Associative(front, [n], fields);
      SplitLast(row);
    }
  }

  lemma {:induction false} RowRoundTrip(row: seq<int>)
    ensures ReadFields(EncodedRow(row)) == Some(row)
  {
    ReadRow(row, "", []);
    assert EncodedRow(row) + "" == EncodedRow(row) && row + [] == row;
  }

  lemma {:induction false} RowHasNoComma(row: seq<int>)
    ensures ',' !in EncodedRow(row) && (row != [] ==> EncodedRow(row) != "")
  {
    if row != [] {
      RowHasNoComma(row[..|row| - 1]);
      EncodedHasNoComma(row[|row| - 1]);
    }
  }

  lemma {:induction false} RowsRoundTrip(rows: seq<seq<int>>)
    requires forall k :: 0 <= k < |rows| ==> |rows[k]| == FIELDS
    ensures ReadRows(EncodedRows(rows)) == Some(rows)
  {
    if rows == [] {
      assert EncodedRows(rows) == [];
    } else {
      RowRoundTrip(rows[0]);
      RowsRoundTrip(rows[1..]);
      assert EncodedRows(rows)[1..] == EncodedRows(rows[1..]);
      assert [rows[0]] + rows[1..] == rows;
    }
  }

  lemma {:induction false} SumsOfDeltas(ps: seq<Position>, last: Position)
    ensures PrefixSums(Rows(ps, last), last) == ps
  {
    if ps == [] {
      assert Rows(ps, last) == [];
    } else {
      SumsOfDeltas(ps[1..], ps[0]);
      assert Rows(ps, last)[1..] == Rows(ps[1..], ps[0]);
      assert Moved(last, Deltas(last, ps[0])) == ps[0];
      assert [ps[0]] + ps[1..] == ps;
    }
  }

  lemma {:induction false} SplitPlain(text: string)
    requires ',' !in text
    ensures SplitCommas(text) == [text]
  {
    if text != "" {
      SplitPlain(text[1..]);
      assert [text[0]] + text[1..] == text;
    }
  }

  lemma {:induction false} SplitFront(text: string, rest: string)
    requires ',' !in text
    ensures SplitCommas(text + "," + rest) == [text] + SplitCommas(rest)
  {
    var all := text + "," + rest;
    if text == "" {
      assert all[0] == ',' && all[1..] == rest;
    } else {
      SplitFront(text[1..], rest);
      assert all[0] == text[0] && all[1..] == text[1..] + "," + rest;
      assert [text[0]] + text[1..] == text;
      var r := SplitCommas(all[1..]);
      assert r[0] == text[1..] && r[1..] == SplitCommas(rest);
    }
  }

  lemma {:induction false} SplitJoin(segments: seq<string>)
    requires segments != [] && forall k :: 0 <= k < |segments| ==> ',' !in segments[k]
    ensures SplitCommas(Join(segments)) == segments
  {
    if |segments| == 1 {
      SplitPlain(segments[0]);
      assert [segments[0]] == segments;
    } else {
      SplitJoin(segments[1..]);
      SplitFront(segments[0], Join(segments[1..]));
      assert [segments[0]] + segments[1..] == segments;
    }
  }

  lemma {:induction false} JoinNotEmpty(segments: seq<string>)
    requires segments != [] && segments[0] != ""
    ensures Join(segments) != ""
  {
  }

  lemma {:induction false} JoinRoundTrip(rows: seq<seq<int>>)
    requires rows != [] && forall k :: 0 <= k < |rows| ==> |rows[k]| == FIELDS
    ensures Join(EncodedRows(rows)) != ""
    ensures ReadRows(SplitCommas(Join(EncodedRows(rows)))) == Some(rows)
  {
    forall k | 0 <= k < |rows|
      ensures ',' !in EncodedRows(rows)[k] && EncodedRows(rows)[k] != ""
    {
      RowHasNoComma(rows[k]);
    }
    SplitJoin(EncodedRows(rows));
    JoinNotEmpty(EncodedRows(rows));
    RowsRoundTrip(rows);
  }

  /** Reading the joined segments gives back the positions they were written for. */
  lemma {:induction false} MappingsRoundTrip(ps: seq<Position>)
    ensures Decode(Join(EncodedRows(Rows(ps, ORIGIN)))) == Some(ps)
  {
    if ps == [] {
      assert EncodedRows(Rows(ps, ORIGIN)) == [];
    } else {
      JoinRoundTrip(Rows(ps, ORIGIN));
      SumsOfDeltas(ps, ORIGIN);
    }
  }

  /** Different positions are never written the same. */
  lemma {:induction false} MappingsInjective(ps: seq<Position>, qs: seq<Position>)
    requires Join(EncodedRows(Rows(ps, ORIGIN))) == Join(EncodedRows(Rows(qs, ORIGIN)))
    ensures ps == qs
  {
    MappingsRoundTrip(ps);
    MappingsRoundTrip(qs);
  }

  // ---------------------------------------------------------------- the writer

  /** Entries without a line are skipped. */
  function Kept(entries: seq<Entry>): seq<Entry> {
    if entries == [] then []
    else
      var last := entries[|entries| - 1];
      Kept(entries[..|entries| - 1]) + if last.line == 0 then [] else [last]
  }

  /** The entries with a line among the first `n`. */
  ghost function WithLine(entries: seq<Entry>, n: nat): set<nat>
    requires n <= |entries|
  {
    set k: nat | k < n && entries[k].line != 0
  }

  lemma {:induction false} WithLineNext(entries: seq<Entry>, n: nat)
    requires n < |entries|
    ensures |WithLine(entries, n + 1)| == |WithLine(entries, n)| + if entries[n].line != 0 then 1 else 0
  {
    assert WithLine(entries, n + 1) == WithLine(entries, n) + if entries[n].line != 0 then {n} else {};
  }

  lemma {:induction false} KeptCount(entries: seq<Entry>, n: nat)
    requires n <= |entries|
    ensures |Kept(entries[..n])| == |WithLine(entries, n)|
  {
    if n == 0 {
      assert WithLine(entries, 0) == {};
    } else {
      KeptCount(entries, n - 1);
      KeptAppend(entries, n - 1);
      WithLineNext(entries, n - 1);
    }
  }

  lemma {:induction false} KeptUpTo(entries: seq<Entry>, n: nat, k: nat)
    requires k < n <= |entries| && entries[k].line != 0
    ensures |WithLine(entries, k)| < |Kept(entries[..n])|
    ensures Kept(entries[..n])[|WithLine(entries, k)|] == entries[k]
    decreases n
  {
    KeptAppend(entries, n - 1);
    if k < n - 1 {
      KeptUpTo(entries, n - 1, k);
    } else {
      KeptCount(entries, k);
    }
  }

  /** The kept entries are those with a line: an entry stands behind the kept ones in front of it. */
  lemma {:induction false} KeptHaveLines(entries: seq<Entry>, k: nat)
    requires k < |entries|
    ensures |Kept(entries)| == |WithLine(entries, |entries|)|
    ensures entries[k].line != 0 ==>
      |WithLine(entries, k)| < |Kept(entries)| && Kept(entries)[|WithLine(entries, k)|] == entries[k]
  {
    TakeAll(entries);
    KeptCount(entries, |entries|);
    if entries[k].line != 0 {
      KeptUpTo(entries, |entries|, k);
    }
  }

  /** The position an entry stands for: its offset address, its source, and its line and column from zero. */
  ghost predicate IsPositionOf(p: Position, entry: Entry, offset: int, sources: seq<string>) {
    && p.generated == entry.address + offset
    && 0 <= p.source < |sources| && sources[p.source] == entry.source
    && p.line == entry.line - 1
    && p.column == (if entry.column == 0 then 1 else entry.column) - 1
  }

  ghost predicate ArePositionsOf(ps: seq<Position>, entries: seq<Entry>, offset: int, sources: seq<string>) {
    |ps| == |entries| && forall k :: 0 <= k < |ps| ==> IsPositionOf(ps[k], entries[k], offset, sources)
  }

  ghost predicate HasSource(entries: seq<Entry>, name: string) {
    exists k :: 0 <= k < |entries| && entries[k].source == name
  }

  /** Every source is listed once, and belongs to an entry. */
  ghost predicate SourcesOf(sources: seq<string>, entries: seq<Entry>) {
    && Distinct(sources)
    && (forall name :: name in sources ==> HasSource(entries, name))
  }

  lemma {:induction false} RowsAppend(ps: seq<Position>, last: Position, p: Position)
    ensures Rows(ps + [p], last) == Rows(ps, last) + [Deltas(LastOf(ps, last), p)]
  {
    if ps == [] {
      assert ps + [p] == [p];
      assert Rows([p], last) == [Deltas(last, p)] + Rows([], p);
    } else {
      RowsAppend(ps[1..], ps[0], p);
      assert (ps + [p])[0] == ps[0] && (ps + [p])[1..] == ps[1..] + [p];
      Associative([Deltas(last, ps[0])], Rows(ps[1..], ps[0]), [Deltas(LastOf(ps, last), p)]);
    }
  }

  lemma {:induction false} EncodedAppend(rows: seq<seq<int>>, row: seq<int>)
    ensures EncodedRows(rows + [row]) == EncodedRows(rows) + [EncodedRow(row)]
  {
  }

  lemma {:induction false} EncodedTwo(row: seq<int>, n: int)
    ensures EncodedRow(row + [n]) == EncodedRow(row) + Encoded(n)
  {
    assert (row + [n])[..|row|] == row;
  }

  lemma {:induction false} MoreSources(sources: seq<string>, entries: seq<Entry>, entry: Entry)
    requires SourcesOf(sources, entries)
    ensures SourcesOf(sources, entries + [entry])
    ensures entry.source !in sources ==> SourcesOf(sources + [entry.source], entries + [entry])
  {
    var all := entries + [entry];
    forall name | name in sources
      ensures HasSource(all, name)
    {
      var k :| 0 <= k < |entries| && entries[k].source == name;
      assert all[k].source == name;
    }
    assert all[|entries|].source == entry.source;
  }

  lemma {:induction false} KeptAppend(entries: seq<Entry>, k: nat)
    requires k < |entries|
    ensures Kept(entries[..k + 1]) == Kept(entries[..k]) + if entries[k].line == 0 then [] else [entries[k]]
  {
    assert entries[..k + 1][..k] == entries[..k];
  }

  /** Write one segment: four deltas. */
  method WriteSegment(row: seq<int>) returns (segment: string)
    requires |row| == FIELDS
    ensures segment == EncodedRow(row)
  {
    var address := EncodeVlq(row[0]);
    var source := EncodeVlq(row[1]);
    var line := EncodeVlq(row[2]);
    var column := EncodeVlq(row[3]);
    FourFields(row[0], row[1], row[2], row[3]);
    assert row == [row[0], row[1], row[2], row[3]];
    segment := address + source + line + column;
  }

  lemma {:induction false} FourFields(a: int, b: int, c: int, d: int)
    ensures EncodedRow([a, b, c, d]) == Encoded(a) + Encoded(b) + Encoded(c) + Encoded(d)
  {
    EncodedTwo([], a);
    EncodedTwo([a], b);
    EncodedTwo([a, b], c);
    EncodedTwo([a, b, c], d);
    assert [] + [a] == [a] && [a] + [b] == [a, b] && [a, b] + [c] == [a, b, c] && [a, b, c] + [d] == [a, b, c, d];
    assert "" + Encoded(a) == Encoded(a);
  }

  lemma {:induction false} PositionsAppend(
      ps: seq<Position>, p: Position, more: seq<Position>, entries: seq<Entry>, entry: Entry, next: seq<Entry>,
      offset: int, sources: seq<string>, moreSources: seq<string>)
    requires ArePositionsOf(ps, entries, offset, sources) && sources <= moreSources
    requires IsPositionOf(p, entry, offset, moreSources)
    requires more == ps + [p] && next == entries + [entry]
    ensures ArePositionsOf(more, next, offset, moreSources)
  {
  }

  lemma {:induction false} MappingsAppend(
      ps: seq<Position>, p: Position, more: seq<Position>, mappings: seq<string>, row: seq<int>, segment: string)
    requires mappings == EncodedRows(Rows(ps, ORIGIN)) && more == ps + [p]
    requires row == Deltas(LastOf(ps, ORIGIN), p) && segment == EncodedRow(row)
    ensures mappings + [segment] == EncodedRows(Rows(more, ORIGIN))
  {
    RowsAppend(ps, ORIGIN, p);
    EncodedAppend(Rows(ps, ORIGIN), row);
  }

  /** The writer's variables. */
  datatype Writer = Writer(
    sources: seq<string>,
    index: map<string, nat>,
    mappings: seq<string>,
    lastAddress: int,
    lastSource: int,
    lastLine: int,
    lastColumn: int
  )

  /** The entries written so far, and the positions they were written as. */
  ghost predicate Written(w: Writer, ps: seq<Position>, entries: seq<Entry>, offset: int) {
    && Indexes(w.index, w.sources) && SourcesOf(w.sources, entries)
    && ArePositionsOf(ps, entries, offset, w.sources)
    && w.mappings == EncodedRows(Rows(ps, ORIGIN))
    && LastOf(ps, ORIGIN) == Position(w.lastAddress, w.lastSource, w.lastLine - 1, w.lastColumn - 1)
  }

  lemma {:induction false} RowIsDeltas(last: Position, p: Position, row: seq<int>)
    requires |row| == FIELDS && Moved(last, row) == p
    ensures row == Deltas(last, p)
  {
  }

  lemma {:induction false} LastOfAppend(ps: seq<Position>, p: Position)
    ensures LastOf(ps + [p], ORIGIN) == p
  {
  }

  /** The position of an entry; its column starts at least at one. */
  method Locate(
      w: Writer, entry: Entry, offset: int, ghost ps: seq<Position>, ghost entries: seq<Entry>, ghost next: seq<Entry>)
    returns (p: Position, sources: seq<string>, index: map<string, nat>)
    requires entry.line != 0 && next == entries + [entry]
    requires Indexes(w.index, w.sources) && SourcesOf(w.sources, entries)
    requires ArePositionsOf(ps, entries, offset, w.sources)
    ensures Indexes(index, sources) && SourcesOf(sources, next)
    ensures ArePositionsOf(ps + [p], next, offset, sources)
  {
    var column := if entry.column == 0 then 1 else entry.column;
    var id;
    id, sources, index := Intern(entry.source, w.sources, w.index);
    p := Position(entry.address + offset, id, entry.line - 1, column - 1);
    MoreSources(w.sources, entries, entry);
    PositionsAppend(ps, p, ps + [p], entries, entry, next, offset, w.sources, sources);
  }

  method WriteEntry(
      w: Writer, entry: Entry, offset: int, ghost ps: seq<Position>, ghost entries: seq<Entry>, ghost next: seq<Entry>)
    returns (r: Writer, ghost more: seq<Position>)
    requires entry.line != 0 && Written(w, ps, entries, offset) && next == entries + [entry]
    ensures Written(r, more, next, offset)
  {
    var p, sources, index := Locate(w, entry, offset, ps, entries, next);
    more := ps + [p];
    var address, source, line, column := p.generated, p.source, p.line + 1, p.column + 1;
    var row := [address - w.lastAddress, source - w.lastSource, line - w.lastLine, column - w.lastColumn];
    RowIsDeltas(LastOf(ps, ORIGIN), p, row);
    var segment := WriteSegment(row);
    r := Writer(sources, index, w.mappings + [segment], address, source, line, column);
    MappingsAppend(ps, p, more, w.mappings, row, segment);
    LastOfAppend(ps, p);
  }

  /**
    Write the mappings of a line table. Reading them back gives, for every entry with a line, its offset
    address, its source, and its line and column.
  */
  method BuildSourcemap(entries: seq<Entry>, offset: int) returns (r: SourceMap)
    ensures Decode(r.mappings).Some?
    ensures ArePositionsOf(Decode(r.mappings).value, Kept(entries), offset, r.sources)
    ensures SourcesOf(r.sources, Kept(entries))
  {
    var w := Writer([], map[], [], 0, 0, 1, 1);
    ghost var ps: seq<Position> := [];
    NothingWritten(w, offset);
    for k := 0 to |entries|
      invariant Written(w, ps, Kept(entries[..k]), offset)
    {
      KeptAppend(entries, k);
      if entries[k].line == 0 {
        NothingKept(Kept(entries[..k]));
      } else {
        w, ps := WriteEntry(w, entries[k], offset, ps, Kept(entries[..k]), Kept(entries[..k + 1]));
      }
    }
    TakeAll(entries);
    MappingsRoundTrip(ps);
    r := SourceMap(w.sources, Join(w.mappings));
  }

  lemma {:induction false} NothingWritten(w: Writer, offset: int)
    requires w == Writer([], map[], [], 0, 0, 1, 1)
    ensures Written(w, [], Kept([]), offset)
  {
    assert EncodedRows(Rows([], ORIGIN)) == [];
  }

  lemma {:induction false} NothingKept(entries: seq<Entry>)
    ensures entries + [] == entries
  {
  }
}
