// Text files of records, and what the parser makes of them: fields written in any way, any line ends, in
// any chunking, up to finish.
module CsvRoundTrip {
  import opened Csv
  import opened CsvCells

  // -------- files --------

  // How a record ends; EOF when nothing follows it.
  datatype End = LF | CR | CRLF | EOF

  datatype Record = Record(cells: seq<Cell>, end: End)

  predicate CellsOk(cfg: Config, cells: seq<Cell>) {
    forall k :: 0 <= k < |cells| ==> CellOk(cfg, cells[k])
  }

  predicate FileOk(cfg: Config, file: seq<Record>) {
    forall r :: 0 <= r < |file| ==>
      file[r].cells != [] && CellsOk(cfg, file[r].cells) && (file[r].end == EOF ==> r == |file| - 1)
  }

  // Cells that are followed by a separator.
  function Separated(cfg: Config, cells: seq<Cell>): string {
    if cells == [] then ""
    else Separated(cfg, cells[..|cells| - 1]) + (WriteCell(cfg, cells[|cells| - 1]) + [cfg.comma])
  }

  function Body(cfg: Config, cells: seq<Cell>): string
    requires cells != []
  {
    Separated(cfg, cells[..|cells| - 1]) + WriteCell(cfg, cells[|cells| - 1])
  }

  function EndText(end: End): string {
    match end
    case LF => "\n"
    case CR => "\r"
    case CRLF => "\r\n"
    case EOF => ""
  }

  function WriteFile(cfg: Config, file: seq<Record>): string
    requires forall r :: 0 <= r < |file| ==> file[r].cells != []
  {
    if file == [] then ""
    else
      var last := file[|file| - 1];
      WriteFile(cfg, file[..|file| - 1]) + (Body(cfg, last.cells) + EndText(last.end))
  }

  // -------- what is to be read --------

  function Texts(cells: seq<Cell>): (r: seq<string>)
    ensures |r| == |cells| && forall k :: 0 <= k < |cells| ==> r[k] == TextOf(cells[k])
  {
    seq(|cells|, k requires 0 <= k < |cells| => TextOf(cells[k]))
  }

  function Rows(file: seq<Record>): (r: seq<seq<string>>)
    ensures |r| == |file| && forall k :: 0 <= k < |file| ==> r[k] == Texts(file[k].cells)
  {
    seq(|file|, k requires 0 <= k < |file| => Texts(file[k].cells))
  }

  // The on_field calls of one row, of a table.
  function RowEvents(row: nat, col: nat, fields: seq<string>): (r: seq<Event>)
    ensures |r| == |fields|
  {
    seq(|fields|, c requires 0 <= c < |fields| => Event(col + c, row, fields[c]))
  }

  function TableEvents(rows: seq<seq<string>>): seq<Event> {
    if rows == [] then [] else TableEvents(rows[..|rows| - 1]) + RowEvents(|rows| - 1, 0, rows[|rows| - 1])
  }

  predicate Rectangular(rows: seq<seq<string>>) {
    forall r :: 0 <= r < |rows| ==> |rows[r]| == |rows[0]|
  }

  // A record of one cell without pieces is nothing but its end.
  predicate Blank(r: Record) {
    r.cells == [Cell([])]
  }

  // A blank record leaves no trace when its LF completes the CR before it, or nothing ends it.
  predicate Swallowed(file: seq<Record>, i: nat)
    requires i < |file|
  {
    i > 0 && Blank(file[i]) && ((file[i - 1].end == CR && file[i].end == LF) || file[i].end == EOF)
  }

  // The records that are left.
  function Seen(file: seq<Record>): (r: seq<Record>)
    ensures |r| <= |file|
    ensures forall k :: 0 <= k < |r| ==> r[k] in file
  {
    if file == [] then []
    else Seen(file[..|file| - 1]) + (if Swallowed(file, |file| - 1) then [] else [file[|file| - 1]])
  }

  // The first row whose width differs.
  function FirstBad(rows: seq<seq<string>>): (k: nat)
    requires !Rectangular(rows)
    ensures k < |rows| && |rows[k]| != |rows[0]| && Rectangular(rows[..k])
  {
    if Rectangular(rows[..|rows| - 1]) then |rows| - 1 else FirstBad(rows[..|rows| - 1])
  }

  // The fields reported before a width is found to differ: all but the last one of the bad row.
  function BadEvents(rows: seq<seq<string>>): seq<Event>
    requires !Rectangular(rows) && forall r :: 0 <= r < |rows| ==> rows[r] != []
  {
    var k := FirstBad(rows);
    TableEvents(rows[..k]) + RowEvents(k, 0, rows[k][..|rows[k]| - 1])
  }

  // With doubled quotes, a quote at the very end might be the first of a pair.
  predicate OpenEnd(cfg: Config, file: seq<Record>) {
    && file != [] && file[|file| - 1].end == EOF && cfg.escape == '\"'
    && file[|file| - 1].cells != [] && EndsQuoted(file[|file| - 1].cells[|file[|file| - 1].cells| - 1])
  }

  // -------- reading records --------

  lemma SeparatorStep(cfg: Config, s: State, c: Cell)
    requires Dialect(cfg) && AtCell(s)
    ensures Step(cfg, AfterCell(cfg, s, c), cfg.comma)
         == Outcome(s.(col := s.col + 1, afterRecordSep := false), [Event(s.col, s.row, TextOf(c))], Ok)
  {
    hide TextOf;
  }

  // A separator reports the field.
  lemma ReadSeparator(cfg: Config, s: State, c: Cell)
    requires Dialect(cfg) && AtCell(s) && CellOk(cfg, c)
    ensures Feed(cfg, s, WriteCell(cfg, c) + [cfg.comma])
         == Outcome(s.(col := s.col + 1, afterRecordSep := false), [Event(s.col, s.row, TextOf(c))], Ok)
  {
    hide Step, Feed, WriteCell, CellOk, AfterCell, TextOf;
    SeparatorStep(cfg, s, c);
    ReadCell(cfg, s, c);
    FeedSnoc(cfg, s, WriteCell(cfg, c), cfg.comma);
  }

  lemma {:induction false} ReadSeparated(cfg: Config, s: State, cells: seq<Cell>)
    requires Dialect(cfg) && AtCell(s) && CellsOk(cfg, cells)
    ensures Feed(cfg, s, Separated(cfg, cells))
         == Outcome(s.(col := s.col + |cells|, afterRecordSep := s.afterRecordSep && cells == []),
                    RowEvents(s.row, s.col, Texts(cells)), Ok)
  {
    hide Step, WriteCell, Feed, CellOk, TextOf;
    if cells == [] {
      NoInput(cfg, s);
    } else {
      var init, last := cells[..|cells| - 1], cells[|cells| - 1];
      ReadSeparated(cfg, s, init);
      var t := s.(col := s.col + |init|, afterRecordSep := s.afterRecordSep && init == []);
      ReadSeparator(cfg, t, last);
      FeedConcat(cfg, s, Separated(cfg, init), WriteCell(cfg, last) + [cfg.comma]);
      assert RowEvents(s.row, s.col, Texts(cells)) == RowEvents(s.row, s.col, Texts(init)) + [Event(s.col + |init|, s.row, TextOf(last))];
    }
  }

  // Where the parser is at the start of a record.
  predicate AtRecordStart(s: State) {
    AtCell(s) && s.col == 0
  }

  function AfterBody(cfg: Config, s: State, cells: seq<Cell>): State
    requires cells != []
  {
    AfterCell(cfg, s.(col := |cells| - 1, afterRecordSep := s.afterRecordSep && |cells| == 1), cells[|cells| - 1])
  }

  function InitTexts(cells: seq<Cell>): seq<string>
    requires cells != []
  {
    Texts(cells[..|cells| - 1])
  }

  lemma ReadBody(cfg: Config, s: State, cells: seq<Cell>)
    requires Dialect(cfg) && AtRecordStart(s) && cells != [] && CellsOk(cfg, cells)
    ensures Feed(cfg, s, Body(cfg, cells)) == Outcome(AfterBody(cfg, s, cells), RowEvents(s.row, 0, InitTexts(cells)), Ok)
  {
    hide Feed, WriteCell, CellOk, TextOf;
    var init, last := cells[..|cells| - 1], cells[|cells| - 1];
    ReadSeparated(cfg, s, init);
    var t := s.(col := |init|, afterRecordSep := s.afterRecordSep && init == []);
    ReadCell(cfg, t, last);
    FeedConcat(cfg, s, Separated(cfg, init), WriteCell(cfg, last));
  }

  // A whole record: its fields, or all but the last one and an error.
  function Ended(s: State, fields: seq<string>): Outcome
    requires fields != []
  {
    if s.afterFirstRow && |fields| != s.numCols then Outcome(s, RowEvents(s.row, 0, fields[..|fields| - 1]), InconsistentColumns)
    else Outcome(State("", 0, s.row + 1, |fields|, true, false, true, false, false), RowEvents(s.row, 0, fields), Ok)
  }

  // The same fields and code, and the same state to go on from.
  predicate Same(o: Outcome, p: Outcome) {
    o.err == p.err && o.events == p.events && (o.err == Ok ==> o.state == p.state)
  }

  // No quote is open.
  predicate Unpending(s: State) {
    !s.quoted && !s.escaping
  }

  // The outcome once a carriage return at the end is taken for a line end.
  function Flush(o: Outcome): Outcome {
    if o.err == Ok && o.state.newlining then Then(o, EndRecord(o.state)) else o
  }

  // The end of the record whose last cell has just been read.
  lemma EndOf(s: State, cells: seq<Cell>, t: State)
    requires AtRecordStart(s) && cells != [] && t.col == |cells| - 1 && t.row == s.row && t.field == TextOf(cells[|cells| - 1])
    requires t.afterFirstRow == s.afterFirstRow && t.numCols == s.numCols && !t.quoted && !t.escaping
    ensures Same(Then(Outcome(t, RowEvents(s.row, 0, InitTexts(cells)), Ok), EndRecord(t)), Ended(s, Texts(cells)))
  {
    var fields := Texts(cells);
    assert fields[..|fields| - 1] == InitTexts(cells);
    assert RowEvents(s.row, 0, fields) == RowEvents(s.row, 0, InitTexts(cells)) + [Event(|cells| - 1, s.row, t.field)];
  }

  // The state after the last cell, with a closing quote settled.
  function Unquoted(t: State): State {
    t.(quoted := false, escaping := false)
  }

  lemma ReadEnd(cfg: Config, s: State, cells: seq<Cell>, end: End)
    requires Dialect(cfg) && AtRecordStart(s) && cells != [] && end != EOF
    ensures var t, o := Unquoted(AfterBody(cfg, s, cells)), Feed(cfg, AfterBody(cfg, s, cells), EndText(end));
      && (end == CR ==> o == Outcome(t.(newlining := true), [], Ok))
      && (o.err == Ok ==> Unpending(o.state))
      && (end != CR ==> Same(o, EndRecord(t)) && (o.err == Ok ==> !o.state.newlining))
  {
    hide TextOf;
    var b := AfterBody(cfg, s, cells);
    var t := Unquoted(b);
    if end == LF {
      FeedFront(cfg, b, '\n', "");
      NoInput(cfg, Step(cfg, b, '\n').state);
      assert ['\n'] + "" == "\n";
    } else {
      assert Step(cfg, b, '\r') == Outcome(t.(newlining := true), [], Ok);
      if end == CR {
        FeedFront(cfg, b, '\r', "");
        NoInput(cfg, t.(newlining := true));
        assert ['\r'] + "" == "\r";
      } else {
        FeedFront(cfg, b, '\r', "\n");
        assert ['\r'] + "\n" == "\r\n";
        FeedFront(cfg, t.(newlining := true), '\n', "");
        NoInput(cfg, Step(cfg, t.(newlining := true), '\n').state);
        assert ['\n'] + "" == "\n";
      }
    }
  }

  lemma ReadRecord(cfg: Config, s: State, cells: seq<Cell>, end: End)
    requires Dialect(cfg) && AtRecordStart(s) && cells != [] && CellsOk(cfg, cells) && end != EOF
    ensures var o := Feed(cfg, s, Body(cfg, cells) + EndText(end));
      && Same(Flush(o), Ended(s, Texts(cells)))
      && (o.err == Ok ==> Unpending(o.state) && (o.state.newlining <==> end == CR))
  {
    hide Feed, Body, CellsOk;
    var b := AfterBody(cfg, s, cells);
    ReadBody(cfg, s, cells);
    ReadEnd(cfg, s, cells, end);
    FeedConcat(cfg, s, Body(cfg, cells), EndText(end));
    EndOf(s, cells, Unquoted(b));
    EndOf(s, cells, Unquoted(b).(newlining := true));
  }

  // -------- reading files --------

  // What a run of records comes to.
  function FileOutcome(rows: seq<seq<string>>): Outcome
    requires forall r :: 0 <= r < |rows| ==> rows[r] != []
  {
    if rows == [] then Outcome(START, [], Ok)
    else
      var o := FileOutcome(rows[..|rows| - 1]);
      if o.err != Ok then o else Then(o, Ended(o.state, rows[|rows| - 1]))
  }

  lemma {:induction false} FileOutcomeIs(rows: seq<seq<string>>)
    requires forall r :: 0 <= r < |rows| ==> rows[r] != []
    ensures var o := FileOutcome(rows);
      if !Rectangular(rows) then o.err == InconsistentColumns && o.events == BadEvents(rows)
      else if rows == [] then o == Outcome(START, [], Ok)
      else o == Outcome(State("", 0, |rows|, |rows[0]|, true, false, true, false, false), TableEvents(rows), Ok)
  {
    if rows != [] {
      var init, last := rows[..|rows| - 1], rows[|rows| - 1];
      FileOutcomeIs(init);
      assert Rectangular(rows) ==> Rectangular(init);
      if Rectangular(init) {
        assert Rectangular(rows) <==> init == [] || |last| == |init[0]|;
        if !Rectangular(rows) {
          assert FirstBad(rows) == |init|;
        }
      } else {
        BadStays(init, last);
        assert rows == init + [last];
      }
    }
  }

  lemma BadStays(rows: seq<seq<string>>, last: seq<string>)
    requires forall r :: 0 <= r < |rows| ==> rows[r] != []
    requires !Rectangular(rows) && last != []
    ensures !Rectangular(rows + [last]) && BadEvents(rows + [last]) == BadEvents(rows)
  {
    var more := rows + [last];
    assert more[..|more| - 1] == rows;
    assert !Rectangular(more) by {
      var k := FirstBad(rows);
      assert more[k] == rows[k] && more[0] == rows[0];
    }
    var k := FirstBad(rows);
    assert FirstBad(more) == k;
    assert more[..k] == rows[..k];
  }

  // The first character of a record.
  lemma FirstChar(cfg: Config, cells: seq<Cell>, end: End)
    requires Dialect(cfg) && cells != [] && CellsOk(cfg, cells)
    ensures var w := Body(cfg, cells) + EndText(end);
      && (w == "" <==> Blank(Record(cells, end)) && end == EOF)
      && (w != "" && w[0] == '\n' <==> Blank(Record(cells, end)) && end == LF)
      && (Blank(Record(cells, end)) && end == LF ==> w == "\n" && w[1..] == "")
  {
    hide CellOk;
    var last := cells[|cells| - 1];
    WriteCellFirst(cfg, last);
    if |cells| > 1 {
      SeparatedFirst(cfg, cells[..|cells| - 1]);
    } else {
      assert cells == [last];
      assert Separated(cfg, cells[..0]) == "";
    }
  }

  lemma {:induction false} SeparatedFirst(cfg: Config, cells: seq<Cell>)
    requires Dialect(cfg) && cells != [] && CellsOk(cfg, cells)
    ensures Separated(cfg, cells) != "" && Separated(cfg, cells)[0] != '\n'
  {
    if |cells| > 1 {
      SeparatedFirst(cfg, cells[..|cells| - 1]);
    } else {
      assert Separated(cfg, cells[..0]) == "";
      WriteCellFirst(cfg, cells[0]);
    }
  }

  // Text behind a carriage return that may still become CRLF.
  lemma ReadBehind(cfg: Config, o: Outcome, w: string)
    requires o.err == Ok && Unpending(o.state) && w != ""
    ensures var f, p := Flush(o), Then(o, Feed(cfg, o.state, w));
      if f.err != Ok then p.err == f.err && p.events == f.events
      else p == Then(f, Feed(cfg, f.state, if o.state.newlining && w[0] == '\n' then w[1..] else w))
  {
    hide Feed;
    if o.state.newlining {
      assert w == [w[0]] + w[1..];
      SettleEarly(cfg, o.state, w[0], w[1..]);
      var e := EndRecord(o.state);
      if e.err == Ok {
        var rest := Feed(cfg, e.state, if w[0] == '\n' then w[1..] else w);
        assert o.events + (e.events + rest.events) == (o.events + e.events) + rest.events;
      }
    }
  }

  // Records that all end: what is read once a last carriage return is taken for a line end.
  lemma {:induction false} ReadEnded(cfg: Config, file: seq<Record>)
    requires Dialect(cfg) && FileOk(cfg, file) && (file != [] ==> file[|file| - 1].end != EOF)
    ensures var o := Feed(cfg, START, WriteFile(cfg, file));
      && Same(Flush(o), FileOutcome(Rows(Seen(file))))
      && (o.err == Ok ==> Unpending(o.state) && (o.state.newlining <==> file != [] && file[|file| - 1].end == CR))
  {
    hide Feed, Body, CellsOk, EndRecord, WriteFile, Seen, FileOutcome;
    if file == [] {
      NoInput(cfg, START);
      NothingWritten(cfg);
      NothingSeen();
      FileOutcomeIs([]);
    } else {
      var init, last := file[..|file| - 1], file[|file| - 1];
      assert FileOk(cfg, init);
      ReadEnded(cfg, init);
      ReadNext(cfg, init, last);
      assert file == init + [last];
      WriteSnoc(cfg, init, last);
    }
  }

  lemma FlushThen(f: Outcome, r: Outcome)
    requires f.err == Ok
    ensures Same(Flush(Then(f, r)), Then(f, Flush(r)))
  {
    hide EndRecord;
    assert f.events + r.events + EndRecord(r.state).events == f.events + (r.events + EndRecord(r.state).events);
  }

  // The rows before decide where the next record starts.
  lemma RecordStartAfter(rows: seq<seq<string>>)
    requires forall r :: 0 <= r < |rows| ==> rows[r] != []
    ensures FileOutcome(rows).err == Ok ==> AtRecordStart(FileOutcome(rows).state)
  {
    FileOutcomeIs(rows);
  }

  lemma SeenSnoc(init: seq<Record>, last: Record)
    ensures Seen(init + [last]) == if Swallowed(init + [last], |init|) then Seen(init) else Seen(init) + [last]
  {
    assert (init + [last])[..|init|] == init;
  }

  lemma FileOutcomeSnoc(rows: seq<Record>, last: Record)
    requires (forall r :: 0 <= r < |rows| ==> rows[r].cells != []) && last.cells != []
    ensures var o := FileOutcome(Rows(rows));
      FileOutcome(Rows(rows + [last])) == if o.err != Ok then o else Then(o, Ended(o.state, Texts(last.cells)))
  {
    hide Ended;
    var all := Rows(rows + [last]);
    assert all[..|all| - 1] == Rows(rows);
  }

  lemma SeenOutcome(init: seq<Record>, last: Record)
    requires (forall r :: 0 <= r < |init| ==> init[r].cells != []) && last.cells != []
    ensures var o := FileOutcome(Rows(Seen(init)));
      FileOutcome(Rows(Seen(init + [last]))) ==
        if o.err != Ok || Swallowed(init + [last], |init|) then o else Then(o, Ended(o.state, Texts(last.cells)))
  {
    hide Ended, Seen, FileOutcome, Swallowed;
    SeenSnoc(init, last);
    FileOutcomeSnoc(Seen(init), last);
  }

  lemma {:induction false} ReadWhole(cfg: Config, f: Outcome, cells: seq<Cell>, end: End)
    requires Dialect(cfg) && f.err == Ok && AtRecordStart(f.state) && cells != [] && CellsOk(cfg, cells) && end != EOF
    ensures var p := Then(f, Feed(cfg, f.state, Body(cfg, cells) + EndText(end)));
      && Same(Flush(p), Then(f, Ended(f.state, Texts(cells))))
      && (p.err == Ok ==> Unpending(p.state) && (p.state.newlining <==> end == CR))
  {
    hide Feed, Body, CellsOk, Ended, EndRecord, AtRecordStart;
    ReadRecord(cfg, f.state, cells, end);
    FlushThen(f, Feed(cfg, f.state, Body(cfg, cells) + EndText(end)));
  }

  // One more record behind what has been read, whose outcome, flushed, is prior.
  lemma {:induction false} ReadMore(cfg: Config, o: Outcome, prior: Outcome, cells: seq<Cell>, end: End)
    requires Dialect(cfg) && cells != [] && CellsOk(cfg, cells) && end != EOF
    requires o.err == Ok && Unpending(o.state) && Same(Flush(o), prior) && (prior.err == Ok ==> AtRecordStart(prior.state))
    ensures var p := Then(o, Feed(cfg, o.state, Body(cfg, cells) + EndText(end)));
      && Same(Flush(p), if prior.err != Ok || (o.state.newlining && end == LF && Blank(Record(cells, end))) then prior
                        else Then(prior, Ended(prior.state, Texts(cells))))
      && (p.err == Ok ==> Unpending(p.state) && (p.state.newlining <==> end == CR))
  {
    hide Feed, Body, CellsOk, Ended, EndRecord;
    var w := Body(cfg, cells) + EndText(end);
    FirstChar(cfg, cells, end);
    ReadBehind(cfg, o, w);
    if prior.err == Ok {
      NoInput(cfg, prior.state);
      ReadWhole(cfg, Flush(o), cells, end);
    }
  }

  lemma {:induction false} ReadNext(cfg: Config, init: seq<Record>, last: Record)
    requires Dialect(cfg) && FileOk(cfg, init) && last.cells != [] && CellsOk(cfg, last.cells) && last.end != EOF
    requires var o := Feed(cfg, START, WriteFile(cfg, init));
      && Same(Flush(o), FileOutcome(Rows(Seen(init))))
      && (o.err == Ok ==> Unpending(o.state) && (o.state.newlining <==> init != [] && init[|init| - 1].end == CR))
    requires init != [] ==> init[|init| - 1].end != EOF
    ensures var o := Feed(cfg, START, WriteFile(cfg, init) + (Body(cfg, last.cells) + EndText(last.end)));
      && Same(Flush(o), FileOutcome(Rows(Seen(init + [last]))))
      && (o.err == Ok ==> Unpending(o.state) && (o.state.newlining <==> last.end == CR))
  {
    hide Feed, Body, CellsOk, Ended, EndRecord, WriteFile, FileOutcome, Seen, AtRecordStart;
    var o, prior := Feed(cfg, START, WriteFile(cfg, init)), FileOutcome(Rows(Seen(init)));
    FeedConcat(cfg, START, WriteFile(cfg, init), Body(cfg, last.cells) + EndText(last.end));
    SeenOutcome(init, last);
    RecordStartAfter(Rows(Seen(init)));
    if o.err == Ok {
      ReadMore(cfg, o, prior, last.cells, last.end);
      assert Swallowed(init + [last], |init|) <==> o.state.newlining && last.end == LF && Blank(last);
    }
  }

  // -------- finish --------

  // A whole input: execute on all of it, then finish.
  function Total(cfg: Config, text: string): Outcome {
    var o := Feed(cfg, START, text);
    if o.err != Ok then o else Then(o, Finished(cfg, o.state))
  }

  // The same fields and code.
  predicate Reports(o: Outcome, p: Outcome) {
    o.err == p.err && o.events == p.events
  }

  lemma {:induction false} SeenSome(file: seq<Record>)
    requires file != []
    ensures Seen(file) != []
  {
    if |file| > 1 {
      SeenSome(file[..|file| - 1]);
    }
  }

  // After a line end, finish reports only what a carriage return held back.
  lemma {:induction false} FinishEnded(cfg: Config, file: seq<Record>)
    requires Dialect(cfg) && FileOk(cfg, file) && file != [] && file[|file| - 1].end != EOF
    ensures Reports(Total(cfg, WriteFile(cfg, file)), FileOutcome(Rows(Seen(file))))
  {
    hide Feed, WriteFile, Seen, EndRecord, FileOutcome;
    ReadEnded(cfg, file);
    SeenSome(file);
    FileOutcomeIs(Rows(Seen(file)));
    var o := Feed(cfg, START, WriteFile(cfg, file));
    if o.err == Ok && !o.state.newlining {
      assert o.events + [] == o.events;
    }
  }

  // The records up to the last one, then the cells of a record that nothing ends.
  lemma {:induction false} ReadUnended(cfg: Config, init: seq<Record>, cells: seq<Cell>)
    requires Dialect(cfg) && FileOk(cfg, init) && (init != [] ==> init[|init| - 1].end != EOF)
    requires cells != [] && CellsOk(cfg, cells) && !Blank(Record(cells, EOF))
    ensures var o, prior := Feed(cfg, START, WriteFile(cfg, init) + Body(cfg, cells)), FileOutcome(Rows(Seen(init)));
      if prior.err != Ok then Reports(o, prior)
      else AtRecordStart(prior.state)
           && o == Then(prior, Outcome(AfterBody(cfg, prior.state, cells), RowEvents(prior.state.row, 0, InitTexts(cells)), Ok))
  {
    hide Feed, WriteFile, Seen, EndRecord, FileOutcome, Body, CellsOk, AfterBody;
    ReadEnded(cfg, init);
    RecordStartAfter(Rows(Seen(init)));
    FirstChar(cfg, cells, EOF);
    assert Body(cfg, cells) + "" == Body(cfg, cells);
    var o := Feed(cfg, START, WriteFile(cfg, init));
    FeedConcat(cfg, START, WriteFile(cfg, init), Body(cfg, cells));
    if o.err == Ok {
      ReadBehind(cfg, o, Body(cfg, cells));
      if Flush(o).err == Ok {
        ReadBody(cfg, Flush(o).state, cells);
      }
    }
  }

  lemma NotBlank(cfg: Config, s: State, cells: seq<Cell>)
    requires cells != [] && AfterBody(cfg, s, cells).afterRecordSep
    ensures Blank(Record(cells, EOF))
  {
    assert cells == [Cell([])];
  }

  // What finish makes of it.
  lemma FinishBody(cfg: Config, s: State, cells: seq<Cell>)
    requires Dialect(cfg) && AtRecordStart(s) && cells != [] && !Blank(Record(cells, EOF))
    ensures var f := Finished(cfg, AfterBody(cfg, s, cells));
      if EndsQuoted(cells[|cells| - 1]) && cfg.escape == '\"' then f.err == QuoteNotClosed && f.events == []
      else Reports(Then(Outcome(AfterBody(cfg, s, cells), RowEvents(s.row, 0, InitTexts(cells)), Ok), f), Ended(s, Texts(cells)))
  {
    hide Feed, EndRecord, Ended;
    var b := AfterBody(cfg, s, cells);
    if !(EndsQuoted(cells[|cells| - 1]) && cfg.escape == '\"') {
      if b.afterRecordSep {
        NotBlank(cfg, s, cells);
      }
      ReadEnd(cfg, s, cells, LF);
      EndOf(s, cells, Unquoted(b));
    }
  }

  // Without any input finish reports one empty field.
  lemma NoRowsIsOneRow(cfg: Config)
    requires Dialect(cfg)
    ensures Reports(Total(cfg, ""), Outcome(START, [Event(0, 0, "")], Ok))
  {
    FeedFront(cfg, START, '\n', "");
    NoInput(cfg, Step(cfg, START, '\n').state);
    assert ['\n'] + "" == "\n";
  }

  // -------- the theorem --------

  // The code and fields that reading a whole file, finish included, comes to.
  ghost predicate ReadAs(cfg: Config, file: seq<Record>, err: Error, events: seq<Event>)
    requires FileOk(cfg, file)
  {
    var rows := Rows(Seen(file));
    if file == [] then err == Ok && events == [Event(0, 0, "")]
    else if OpenEnd(cfg, file) then
      var before := Rows(Seen(file[..|file| - 1]));
      if Rectangular(before) then
        err == QuoteNotClosed && events == TableEvents(before) + RowEvents(|before|, 0, InitTexts(file[|file| - 1].cells))
      else err == InconsistentColumns && events == BadEvents(before)
    else if Rectangular(rows) then err == Ok && events == TableEvents(rows)
    else err == InconsistentColumns && events == BadEvents(rows)
  }

  // The fields and code of a run of records, in terms of their rows.
  lemma OutcomeReads(rows: seq<seq<string>>, err: Error, events: seq<Event>)
    requires forall r :: 0 <= r < |rows| ==> rows[r] != []
    requires err == FileOutcome(rows).err && events == FileOutcome(rows).events
    ensures if Rectangular(rows) then err == Ok && events == TableEvents(rows)
            else err == InconsistentColumns && events == BadEvents(rows)
  {
    hide TableEvents, BadEvents, FileOutcome;
    FileOutcomeIs(rows);
    if rows == [] {
      assert TableEvents(rows) == [] by { NoEvents(); }
    }
  }

  lemma TableEventsSnoc(rows: seq<seq<string>>, row: seq<string>)
    ensures TableEvents(rows + [row]) == TableEvents(rows) + RowEvents(|rows|, 0, row)
  {
    assert (rows + [row])[..|rows|] == rows;
  }

  lemma NothingSeen()
    ensures Seen([]) == []
  {
  }

  lemma NoEvents()
    ensures TableEvents([]) == []
  {
  }

  lemma WriteSnoc(cfg: Config, init: seq<Record>, last: Record)
    requires (forall r :: 0 <= r < |init| ==> init[r].cells != []) && last.cells != []
    ensures WriteFile(cfg, init + [last]) == WriteFile(cfg, init) + (Body(cfg, last.cells) + EndText(last.end))
  {
    assert (init + [last])[..|init|] == init;
  }

  lemma {:induction false} BlankUnended(cfg: Config, init: seq<Record>)
    requires Dialect(cfg) && FileOk(cfg, init) && (init != [] ==> init[|init| - 1].end != EOF)
    ensures var file := init + [Record([Cell([])], EOF)];
      && FileOk(cfg, file)
      && var o := Total(cfg, WriteFile(cfg, file)); ReadAs(cfg, file, o.err, o.events)
  {
    hide Seen, FileOutcome, Total, Rectangular, BadEvents, TableEvents, WriteFile;
    var last := Record([Cell([])], EOF);
    var file := init + [last];
    WriteSnoc(cfg, init, last);
    FirstChar(cfg, last.cells, EOF);
    assert WriteFile(cfg, file) == WriteFile(cfg, init);
    SeenSnoc(init, last);
    if init == [] {
      NothingWritten(cfg);
      NoRowsIsOneRow(cfg);
      OneEmptyRow();
      assert file == [last];
    } else {
      FinishEnded(cfg, init);
      OutcomeReads(Rows(Seen(init)), Total(cfg, WriteFile(cfg, init)).err, Total(cfg, WriteFile(cfg, init)).events);
    }
  }

  lemma NoPieces()
    ensures TextOf(Cell([])) == ""
  {
  }

  lemma OneEmptyRow()
    ensures var rows := Rows(Seen([Record([Cell([])], EOF)]));
      Rectangular(rows) && TableEvents(rows) == [Event(0, 0, "")]
  {
    hide Seen, TableEvents;
    var last := Record([Cell([])], EOF);
    assert [] + [last] == [last];
    SeenSnoc([], last);
    NothingSeen();
    var rows := Rows([last]);
    assert Texts(last.cells) == [""] by { NoPieces(); }
    assert rows == [] + [[""]];
    TableEventsSnoc([], [""]);
    NoEvents();
  }

  // Reading and finishing a record that nothing ends, in terms of the records before it.
  lemma {:induction false} FilledTotal(cfg: Config, init: seq<Record>, cells: seq<Cell>)
    requires Dialect(cfg) && FileOk(cfg, init) && (init != [] ==> init[|init| - 1].end != EOF)
    requires cells != [] && CellsOk(cfg, cells) && !Blank(Record(cells, EOF))
    ensures var o, prior := Total(cfg, WriteFile(cfg, init) + Body(cfg, cells)), FileOutcome(Rows(Seen(init)));
      if prior.err != Ok then Reports(o, prior)
      else if EndsQuoted(cells[|cells| - 1]) && cfg.escape == '\"' then
        o.err == QuoteNotClosed && o.events == prior.events + RowEvents(prior.state.row, 0, InitTexts(cells))
      else Reports(o, Then(prior, Ended(prior.state, Texts(cells))))
  {
    hide Seen, FileOutcome, WriteFile, Feed, Body, AfterBody, Finished, Ended, AtRecordStart, CellsOk;
    ReadUnended(cfg, init, cells);
    var prior := FileOutcome(Rows(Seen(init)));
    if prior.err == Ok {
      FinishBody(cfg, prior.state, cells);
      var f := Finished(cfg, AfterBody(cfg, prior.state, cells));
      assert prior.events + RowEvents(prior.state.row, 0, InitTexts(cells)) + f.events
          == prior.events + (RowEvents(prior.state.row, 0, InitTexts(cells)) + f.events);
      assert prior.events + (RowEvents(prior.state.row, 0, InitTexts(cells)) + [])
          == prior.events + RowEvents(prior.state.row, 0, InitTexts(cells));
    }
  }

  lemma {:induction false} FilledUnended(cfg: Config, init: seq<Record>, cells: seq<Cell>)
    requires Dialect(cfg) && FileOk(cfg, init) && (init != [] ==> init[|init| - 1].end != EOF)
    requires cells != [] && CellsOk(cfg, cells) && !Blank(Record(cells, EOF))
    ensures var file := init + [Record(cells, EOF)];
      && FileOk(cfg, file)
      && var o := Total(cfg, WriteFile(cfg, file)); ReadAs(cfg, file, o.err, o.events)
  {
    hide Seen, FileOutcome, Rectangular, BadEvents, TableEvents, WriteFile, Total, Body, Ended, CellsOk;
    var last := Record(cells, EOF);
    var file := init + [last];
    assert file[..|file| - 1] == init && FileOk(cfg, file);
    WriteSnoc(cfg, init, last);
    assert Body(cfg, cells) + "" == Body(cfg, cells);
    SeenOutcome(init, last);
    FilledTotal(cfg, init, cells);
    var prior, o := FileOutcome(Rows(Seen(init))), Total(cfg, WriteFile(cfg, file));
    OutcomeReads(Rows(Seen(init)), prior.err, prior.events);
    RowReached(Rows(Seen(init)));
    if !OpenEnd(cfg, file) {
      OutcomeReads(Rows(Seen(file)), o.err, o.events);
    }
  }

  lemma RowReached(rows: seq<seq<string>>)
    requires forall r :: 0 <= r < |rows| ==> rows[r] != []
    ensures FileOutcome(rows).err == Ok ==> FileOutcome(rows).state.row == |rows|
  {
    FileOutcomeIs(rows);
  }

  lemma {:induction false} ReadWholeFile(cfg: Config, file: seq<Record>)
    requires Dialect(cfg) && FileOk(cfg, file)
    ensures var o := Total(cfg, WriteFile(cfg, file)); ReadAs(cfg, file, o.err, o.events)
  {
    hide WriteFile, Seen, FileOutcome, Total, Rectangular, FirstBad, BadEvents, TableEvents;
    if file == [] {
      NoRowsIsOneRow(cfg);
      assert WriteFile(cfg, file) == "" by { NothingWritten(cfg); }
    } else if file[|file| - 1].end != EOF {
      FinishEnded(cfg, file);
      OutcomeReads(Rows(Seen(file)), Total(cfg, WriteFile(cfg, file)).err, Total(cfg, WriteFile(cfg, file)).events);
    } else {
      var init, cells := file[..|file| - 1], file[|file| - 1].cells;
      assert file == init + [Record(cells, EOF)];
      if Blank(Record(cells, EOF)) {
        BlankUnended(cfg, init);
      } else {
        FilledUnended(cfg, init, cells);
      }
    }
  }

  lemma NothingWritten(cfg: Config)
    ensures WriteFile(cfg, []) == ""
  {
  }

  // -------- reading through the parser --------

  // Table::from_csv's loop over the buffers, and finish.
  method ReadChunks(escape: char, comma: char, chunks: seq<string>) returns (err: Error, events: seq<Event>)
    requires forall i :: 0 <= i < |chunks| ==> chunks[i] != ""
    ensures var o := Total(Config(escape, comma), Join(chunks)); err == o.err && events == o.events
  {
    hide Feed, Finished;
    var parser := new CSVParser(escape, comma);
    var cfg := parser.cfg;
    AnyChunking(cfg, START, chunks);
    for k := 0 to |chunks|
      invariant parser.cfg == cfg && Consistent(parser.View())
      invariant parser.View() == InChunks(cfg, START, chunks[..k]).state && parser.events == InChunks(cfg, START, chunks[..k]).events
      invariant InChunks(cfg, START, chunks[..k]).err == Ok
    {
      assert chunks[..k + 1][..k] == chunks[..k];
      err := parser.Execute(chunks[k]);
      if err != Ok {
        ChunksStay(cfg, chunks, k + 1);
        return err, parser.events;
      }
    }
    assert chunks[..|chunks|] == chunks;
    err := parser.Finish();
    events := parser.events;
  }

  // Later chunks are not looked at after an error.
  lemma {:induction false} ChunksStay(cfg: Config, chunks: seq<string>, k: nat)
    requires k <= |chunks| && InChunks(cfg, START, chunks[..k]).err != Ok
    ensures InChunks(cfg, START, chunks) == InChunks(cfg, START, chunks[..k])
    decreases |chunks| - k
  {
    hide Execution;
    if k < |chunks| {
      assert chunks[..k + 1][..k] == chunks[..k];
      ChunksStay(cfg, chunks, k + 1);
    } else {
      assert chunks[..k] == chunks;
    }
  }

  // A file, its cells written in any way, in any chunking, is read as ReadAs says; its cells come back exactly
  // when it has a record, none is swallowed, all are equally wide, and no quote stands open at the end.
  method ReadFile(escape: char, comma: char, chunks: seq<string>, ghost file: seq<Record>) returns (err: Error, events: seq<Event>)
    requires Dialect(Config(escape, comma)) && FileOk(Config(escape, comma), file)
    requires Join(chunks) == WriteFile(Config(escape, comma), file) && forall i :: 0 <= i < |chunks| ==> chunks[i] != ""
    ensures ReadAs(Config(escape, comma), file, err, events)
    ensures err == Ok && events == TableEvents(Rows(file)) <==>
              file != [] && (forall i :: 0 <= i < |file| ==> !Swallowed(file, i)) && Rectangular(Rows(file))
              && !OpenEnd(Config(escape, comma), file)
  {
    hide WriteFile, Total, Seen, ReadAs, Rectangular, Swallowed, OpenEnd, TableEvents;
    err, events := ReadChunks(escape, comma, chunks);
    ReadWholeFile(Config(escape, comma), file);
    ReadBack(Config(escape, comma), file, err, events);
  }

  lemma {:induction false} ReadBack(cfg: Config, file: seq<Record>, err: Error, events: seq<Event>)
    requires FileOk(cfg, file) && ReadAs(cfg, file, err, events)
    ensures err == Ok && events == TableEvents(Rows(file)) <==>
              file != [] && (forall i :: 0 <= i < |file| ==> !Swallowed(file, i)) && Rectangular(Rows(file)) && !OpenEnd(cfg, file)
  {
    hide Seen, Rectangular, BadEvents, TableEvents, Swallowed, OpenEnd;
    SeenCount(file);
    if file == [] {
      NoEvents();
    }
    if Seen(file) != file {
      assert |TableEvents(Rows(Seen(file)))| < |TableEvents(Rows(file))|;
    }
  }

  // A swallowed record loses its field.
  lemma {:induction false} SeenCount(file: seq<Record>)
    requires forall r :: 0 <= r < |file| ==> file[r].cells != []
    ensures Seen(file) == file <==> forall i :: 0 <= i < |file| ==> !Swallowed(file, i)
    ensures |TableEvents(Rows(Seen(file)))| <= |TableEvents(Rows(file))|
    ensures Seen(file) != file ==> |TableEvents(Rows(Seen(file)))| < |TableEvents(Rows(file))|
  {
    hide Seen, Rows, TableEvents, Swallowed;
    if file == [] {
      NothingSeen();
    } else {
      var init, last := file[..|file| - 1], file[|file| - 1];
      SeenCount(init);
      assert file == init + [last];
      SeenSnoc(init, last);
      SwallowedBefore(init, last);
      EventsSnoc(init, last);
      EventsSnoc(Seen(init), last);
    }
  }

  lemma SwallowedBefore(init: seq<Record>, last: Record)
    ensures forall i :: 0 <= i < |init| ==> Swallowed(init + [last], i) == Swallowed(init, i)
  {
  }

  lemma EventsSnoc(file: seq<Record>, last: Record)
    requires last.cells != []
    ensures |TableEvents(Rows(file + [last]))| == |TableEvents(Rows(file))| + |last.cells|
  {
    assert Rows(file + [last]) == Rows(file) + [Texts(last.cells)];
    TableEventsSnoc(Rows(file), Texts(last.cells));
  }

  // -------- a quote that is never closed --------

  // A file that ends inside an open quote, after whole records, cells of one more and pieces of its last
  // cell: finish refuses it.
  method ReadOpen(escape: char, comma: char, chunks: seq<string>, ghost file: seq<Record>, ghost cells: seq<Cell>, ghost last: Cell,
                  ghost items: seq<Item>)
      returns (err: Error, events: seq<Event>)
    requires Dialect(Config(escape, comma)) && FileOk(Config(escape, comma), file) && (file != [] ==> file[|file| - 1].end != EOF)
    requires CellsOk(Config(escape, comma), cells) && CellOk(Config(escape, comma), last) && ItemsOk(Config(escape, comma), items)
    requires escape == '\"' ==> !EndsQuoted(last)
    requires Join(chunks) == WriteFile(Config(escape, comma), file) + OpenText(Config(escape, comma), cells, last, items)
    requires forall i :: 0 <= i < |chunks| ==> chunks[i] != ""
    ensures var rows := Rows(Seen(file));
      if Rectangular(rows) then err == QuoteNotClosed && events == TableEvents(rows) + RowEvents(|rows|, 0, Texts(cells))
      else err == InconsistentColumns && events == BadEvents(rows)
  {
    err, events := ReadChunks(escape, comma, chunks);
    OpenReads(Config(escape, comma), file, cells, last, items);
  }

  function OpenText(cfg: Config, cells: seq<Cell>, last: Cell, items: seq<Item>): string {
    Separated(cfg, cells) + (WriteCell(cfg, last) + ("\"" + ItemsText(cfg, items)))
  }

  lemma {:induction false} OpenReads(cfg: Config, file: seq<Record>, cells: seq<Cell>, last: Cell, items: seq<Item>)
    requires Dialect(cfg) && FileOk(cfg, file) && (file != [] ==> file[|file| - 1].end != EOF)
    requires CellsOk(cfg, cells) && CellOk(cfg, last) && ItemsOk(cfg, items) && (cfg.escape == '\"' ==> !EndsQuoted(last))
    ensures var o, rows := Total(cfg, WriteFile(cfg, file) + OpenText(cfg, cells, last, items)), Rows(Seen(file));
      if Rectangular(rows) then o.err == QuoteNotClosed && o.events == TableEvents(rows) + RowEvents(|rows|, 0, Texts(cells))
      else o.err == InconsistentColumns && o.events == BadEvents(rows)
  {
    hide Feed, WriteFile, Seen, EndRecord, FileOutcome, OpenText, CellsOk, CellOk, ItemsOk, Rectangular, TableEvents, BadEvents;
    var o, w := Feed(cfg, START, WriteFile(cfg, file)), OpenText(cfg, cells, last, items);
    ReadEnded(cfg, file);
    RecordStartAfter(Rows(Seen(file)));
    RowReached(Rows(Seen(file)));
    var prior := FileOutcome(Rows(Seen(file)));
    OutcomeReads(Rows(Seen(file)), prior.err, prior.events);
    FeedConcat(cfg, START, WriteFile(cfg, file), w);
    if o.err == Ok {
      OpenFirst(cfg, cells, last, items);
      ReadBehind(cfg, o, w);
      if prior.err == Ok {
        ReadOpenCell(cfg, prior.state, cells, last, items);
        var p := Feed(cfg, prior.state, w);
        assert prior.events + p.events + [] == prior.events + p.events;
      }
    }
  }

  lemma OpenFirst(cfg: Config, cells: seq<Cell>, last: Cell, items: seq<Item>)
    requires Dialect(cfg) && CellsOk(cfg, cells) && CellOk(cfg, last)
    ensures var w := OpenText(cfg, cells, last, items); w != "" && w[0] != '\n'
  {
    hide CellOk;
    WriteCellFirst(cfg, last);
    if cells != [] {
      SeparatedFirst(cfg, cells);
    }
  }

  lemma ReadOpenCell(cfg: Config, s: State, cells: seq<Cell>, last: Cell, items: seq<Item>)
    requires Dialect(cfg) && AtRecordStart(s) && CellsOk(cfg, cells) && CellOk(cfg, last) && ItemsOk(cfg, items)
    requires cfg.escape == '\"' ==> !EndsQuoted(last)
    ensures var o := Feed(cfg, s, OpenText(cfg, cells, last, items));
      o.err == Ok && o.state.quoted && o.events == RowEvents(s.row, 0, Texts(cells))
  {
    hide Feed, Separated, WriteCell, ItemsText, CellsOk, CellOk, ItemsOk;
    var t := s.(col := |cells|, afterRecordSep := s.afterRecordSep && cells == []);
    var open := "\"" + ItemsText(cfg, items);
    ReadSeparated(cfg, s, cells);
    ReadCell(cfg, t, last);
    ReadOpening(cfg, AfterCell(cfg, t, last), items);
    FeedConcat(cfg, s, Separated(cfg, cells), WriteCell(cfg, last) + open);
    FeedConcat(cfg, t, WriteCell(cfg, last), open);
  }
}
