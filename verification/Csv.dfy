// The streaming CSV parser (src/csv_parser.cpp) without its trailing-comma mode.
module Csv {

  datatype Error = Ok | QuoteNotClosed | InconsistentColumns

  // One call of on_field.
  datatype Event = Event(col: nat, row: nat, field: string)

  // Escape and separator characters.
  datatype Config = Config(escape: char, comma: char)

  datatype State = State(field: string, col: nat, row: nat, numCols: nat, afterFirstRow: bool,
                         quoted: bool, afterRecordSep: bool, escaping: bool, newlining: bool)

  const START := State("", 0, 0, 0, false, false, false, false, false)

  // What a parser does with some input: the state it ends in, the fields it reports, its code.
  datatype Outcome = Outcome(state: State, events: seq<Event>, err: Error)

  // -------- a parser that looks at one character at a time --------

  // End of a record: the number of fields must be that of the first row.
  function EndRecord(s: State): Outcome {
    if s.afterFirstRow && s.col + 1 != s.numCols then Outcome(s, [], InconsistentColumns)
    else
      Outcome(s.(field := "", col := 0, row := s.row + 1, numCols := s.col + 1, afterFirstRow := true,
                 afterRecordSep := true, newlining := false),
              [Event(s.col, s.row, s.field)], Ok)
  }

  function Push(s: State, c: char): State {
    s.(field := s.field + [c], afterRecordSep := false)
  }

  // A character when nothing is pending.
  function Plain(cfg: Config, s: State, c: char): Outcome {
    if c == cfg.comma then
      if s.quoted then Outcome(Push(s, c), [], Ok)
      else Outcome(s.(field := "", col := s.col + 1, afterRecordSep := false), [Event(s.col, s.row, s.field)], Ok)
    else if c == '\n' || c == '\r' then
      if s.quoted then Outcome(Push(s, c), [], Ok)
      else if c == '\r' then Outcome(s.(newlining := true), [], Ok)
      else EndRecord(s)
    else if c == '\"' then
      if cfg.escape == '\"' then
        if s.quoted then Outcome(s.(escaping := true), [], Ok)
        else Outcome(s.(quoted := true, afterRecordSep := false), [], Ok)
      else Outcome(s.(quoted := !s.quoted, afterRecordSep := false), [], Ok)
    else if c == cfg.escape then
      if s.quoted then Outcome(s.(escaping := true), [], Ok)
      else Outcome(Push(s, c), [], Ok)
    else Outcome(Push(s, c), [], Ok)
  }

  // A character in any state: a pending escape or carriage return is settled first.
  function Step(cfg: Config, s: State, c: char): Outcome {
    if s.escaping then
      var t := s.(escaping := false);
      if cfg.escape == '\"' then
        if c == '\"' then Outcome(Push(t, c), [], Ok)
        else Plain(cfg, t.(quoted := false), c)
      else if c == '\"' || c == cfg.escape then Outcome(Push(t, c), [], Ok)
      else Plain(cfg, Push(t, cfg.escape), c)
    else if s.newlining then
      var o := EndRecord(s);
      if o.err != Ok || c == '\n' then o else Then(o, Plain(cfg, o.state, c))
    else Plain(cfg, s, c)
  }

  function Then(o: Outcome, p: Outcome): Outcome {
    Outcome(p.state, o.events + p.events, p.err)
  }

  function Feed(cfg: Config, s: State, input: string): Outcome {
    if input == "" then Outcome(s, [], Ok)
    else
      var o := Feed(cfg, s, input[..|input| - 1]);
      if o.err != Ok then o else Then(o, Step(cfg, o.state, input[|input| - 1]))
  }

  // Once in error, always in the same error; otherwise the rest is read from the state reached.
  lemma {:induction false} FeedConcat(cfg: Config, s: State, a: string, b: string)
    ensures var o := Feed(cfg, s, a);
      Feed(cfg, s, a + b) == if o.err != Ok then o else Then(o, Feed(cfg, o.state, b))
  {
    hide Step;
    if b == "" {
      assert a + b == a;
    } else {
      var init := b[..|b| - 1];
      FeedConcat(cfg, s, a, init);
      assert (a + b)[..|a + b| - 1] == a + init;
    }
  }

  lemma FeedSnoc(cfg: Config, s: State, a: string, c: char)
    ensures var o := Feed(cfg, s, a);
      Feed(cfg, s, a + [c]) == if o.err != Ok then o else Then(o, Step(cfg, o.state, c))
  {
    assert (a + [c])[..|a|] == a;
  }

  lemma FeedFront(cfg: Config, s: State, c: char, rest: string)
    ensures var o := Step(cfg, s, c);
      Feed(cfg, s, [c] + rest) == if o.err != Ok then o else Then(o, Feed(cfg, o.state, rest))
  {
    hide Step;
    FeedConcat(cfg, s, [c], rest);
    FeedSnoc(cfg, s, "", c);
    assert "" + [c] == [c];
  }

  // -------- settling what is pending --------

  // The outcome of settling before the next character is read, and how many characters that uses up.
  function Settle(cfg: Config, s: State, c: char): (Outcome, nat)
    requires s.escaping || s.newlining
  {
    if s.escaping then
      var t := s.(escaping := false);
      if cfg.escape == '"' then
        if c == '"' then (Outcome(Push(t, c), [], Ok), 1) else (Outcome(t.(quoted := false), [], Ok), 0)
      else if c == '"' || c == cfg.escape then (Outcome(Push(t, c), [], Ok), 1)
      else (Outcome(Push(t, cfg.escape), [], Ok), 0)
    else (EndRecord(s), if c == '\n' then 1 else 0)
  }

  // Settling early does not change what the rest of the input means.
  lemma SettleEarly(cfg: Config, s: State, c: char, rest: string)
    requires (s.escaping || s.newlining) && Consistent(s)
    ensures var (o, n) := Settle(cfg, s, c);
      if o.err != Ok then Feed(cfg, s, [c] + rest).err == o.err && Feed(cfg, s, [c] + rest).events == []
      else Feed(cfg, s, [c] + rest) == Then(o, Feed(cfg, o.state, if n == 1 then rest else [c] + rest))
  {
    FeedFront(cfg, s, c, rest);
    var (o, n) := Settle(cfg, s, c);
    if o.err == Ok && n == 0 {
      assert !o.state.escaping && !o.state.newlining;
      FeedFront(cfg, o.state, c, rest);
      assert Step(cfg, s, c) == Then(o, Plain(cfg, o.state, c));
      var p := Plain(cfg, o.state, c);
      hide Feed, Plain, Step;
      assert o.events + (p.events + Feed(cfg, p.state, rest).events) == o.events + p.events + Feed(cfg, p.state, rest).events;
    }
  }

  // Facts about every state a parser can be in.
  predicate Consistent(s: State) {
    && (s.quoted ==> !s.afterRecordSep && !s.newlining)
    && (s.escaping ==> s.quoted)
  }

  // The whole run consists of what has been reported already and what is left.
  ghost predicate Continues(total: Outcome, done: seq<Event>, rest: Outcome) {
    && total.err == rest.err
    && total.events == done + rest.events
    && (rest.err == Ok ==> total.state == rest.state)
  }

  lemma ContinuesThen(total: Outcome, done: seq<Event>, o: Outcome, rest: Outcome)
    requires Continues(total, done, if o.err != Ok then o else Then(o, rest))
    ensures if o.err != Ok then Continues(total, done, o) else Continues(total, done + o.events, rest)
  {
    assert done + (o.events + rest.events) == done + o.events + rest.events;
  }

  // Reading the next character of a buffer.
  lemma ReadOne(cfg: Config, s: State, buffer: string, i: nat, total: Outcome, done: seq<Event>)
    requires i < |buffer| && Continues(total, done, Feed(cfg, s, buffer[i..]))
    ensures var o := Step(cfg, s, buffer[i]);
      if o.err != Ok then Continues(total, done, o)
      else Continues(total, done + o.events, Feed(cfg, o.state, buffer[i + 1..]))
  {
    hide Feed, Step;
    assert buffer[i..] == [buffer[i]] + buffer[i + 1..];
    FeedFront(cfg, s, buffer[i], buffer[i + 1..]);
    var o := Step(cfg, s, buffer[i]);
    ContinuesThen(total, done, o, Feed(cfg, o.state, buffer[i + 1..]));
  }

  // Settling with the next character of a buffer in view.
  lemma SettleOne(cfg: Config, s: State, buffer: string, i: nat, total: Outcome, done: seq<Event>)
    requires i < |buffer| && (s.escaping || s.newlining) && Consistent(s)
    requires Continues(total, done, Feed(cfg, s, buffer[i..]))
    ensures var (o, n) := Settle(cfg, s, buffer[i]);
      && n <= 1
      && if o.err != Ok then total.err == o.err && total.events == done
         else Continues(total, done + o.events, Feed(cfg, o.state, buffer[i + n..]))
  {
    hide Feed, Step;
    assert buffer[i..] == [buffer[i]] + buffer[i + 1..];
    SettleEarly(cfg, s, buffer[i], buffer[i + 1..]);
    var (o, n) := Settle(cfg, s, buffer[i]);
    if o.err == Ok {
      ContinuesThen(total, done, o, Feed(cfg, o.state, buffer[i + n..]));
    }
  }

  // The outcome o on top of the events reported before.
  function After(events: seq<Event>, o: Outcome): Outcome {
    Outcome(o.state, events + o.events, o.err)
  }

  // What execute does with a buffer.  The empty buffer, which only finish passes, settles a
  // pending carriage return.
  function Execution(cfg: Config, s: State, buffer: string): Outcome {
    if buffer != "" then Feed(cfg, s, buffer)
    else if s.newlining then EndRecord(s)
    else Outcome(s, [], Ok)
  }

  // -------- the parser itself --------

  class CSVParser {
    const cfg: Config
    var currentField: string
    var colIdx: nat
    var rowIdx: nat
    var numCols: nat
    var afterFirstRow: bool
    var quoted: bool
    var afterRecordSep: bool
    var escaping: bool
    var newlining: bool
    var events: seq<Event>      // the on_field calls made so far

    function View(): State
      reads this
    {
      State(currentField, colIdx, rowIdx, numCols, afterFirstRow, quoted, afterRecordSep, escaping, newlining)
    }

    constructor (escape: char, sep: char)
      ensures cfg == Config(escape, sep) && View() == START && events == []
    {
      cfg := Config(escape, sep);
      currentField, colIdx, rowIdx, numCols := "", 0, 0, 0;
      afterFirstRow, quoted, afterRecordSep, escaping, newlining := false, false, false, false, false;
      events := [];
    }

    method OnField()
      modifies `events
      ensures events == old(events) + [Event(colIdx, rowIdx, currentField)]
    {
      events := events + [Event(colIdx, rowIdx, currentField)];
    }

    // The record-end block that execute contains twice.
    method FinishRecord() returns (err: Error)
      modifies this
      ensures var o := EndRecord(old(View()));
        && err == o.err && events == old(events) + o.events
        && (err == Ok ==> View() == o.state.(newlining := old(newlining)))
    {
      if !afterFirstRow {
        afterFirstRow := true;
        numCols := colIdx + 1;
      } else if colIdx + 1 != numCols {
        return InconsistentColumns;
      }
      OnField();
      currentField := "";
      colIdx := 0;
      rowIdx := rowIdx + 1;
      afterRecordSep := true;
      return Ok;
    }

    // execute, first half: settle what the previous buffer left pending.
    method Resume(buffer: string, ghost total: Outcome) returns (i: nat, err: Error)
      requires Consistent(View()) && (escaping ==> buffer != "")
      requires total == After(events, Execution(cfg, View(), buffer))
      modifies this
      ensures i <= |buffer|
      ensures if err != Ok then err == total.err && events == total.events
              else Continues(total, events, Feed(cfg, View(), buffer[i..]))
      ensures err == Ok ==> Consistent(View()) && !escaping && !newlining
    {
      hide Feed;
      assert buffer[0..] == buffer;
      if buffer != "" && (escaping || newlining) {
        SettleOne(cfg, View(), buffer, 0, total, events);
      }
      NoInput(cfg, View());
      i := 0;
      if escaping {
        if cfg.escape == '\"' {
          if buffer[0] == '\"' {
            i := i + 1;
            currentField := currentField + ['\"'];
          } else {
            quoted := false;
          }
        } else {
          var c := buffer[0];
          if c == '\"' || c == cfg.escape {
            currentField := currentField + [c];
            i := i + 1;
          } else {
            currentField := currentField + [cfg.escape];
          }
        }
        escaping := false;
      }
      if newlining {
        if |buffer| > 0 && buffer[0] == '\n' {
          i := i + 1;
        }
        err := FinishRecord();
        if err != Ok {
          return;
        }
        newlining := false;
        NoInput(cfg, View());
      }
      return i, Ok;
    }

    // execute: looks one character ahead where it can, yet reports what the parser that reads one
    // character at a time reports.
    method Execute(buffer: string) returns (err: Error)
      requires Consistent(View()) && (escaping ==> buffer != "")
      modifies this
      ensures var o := Execution(cfg, old(View()), buffer);
        && err == o.err && events == old(events) + o.events
        && (err == Ok ==> View() == o.state && Consistent(View()))
    {
      hide Feed, Step, Plain;
      ghost var total := After(events, Execution(cfg, View(), buffer));
      var i;
      i, err := Resume(buffer, total);
      if err != Ok {
        return;
      }
      while i < |buffer|
        invariant i <= |buffer| && Consistent(View()) && !escaping && !newlining
        invariant Continues(total, events, Feed(cfg, View(), buffer[i..]))
      {
        var stop;
        i, stop, err := ReadChar(buffer, i, total);
        if stop {
          return;
        }
      }
      NoInputLeft(cfg, View(), buffer);
      return Ok;
    }

    // One iteration of execute's loop; stop means that execute returns err here.
    method ReadChar(buffer: string, at: nat, ghost total: Outcome) returns (i: nat, stop: bool, err: Error)
      requires at < |buffer| && Consistent(View()) && !escaping && !newlining
      requires Continues(total, events, Feed(cfg, View(), buffer[at..]))
      modifies this
      ensures stop ==> err == total.err && events == total.events && (err == Ok ==> View() == total.state)
      ensures !stop ==> at < i <= |buffer| && !escaping && !newlining
                        && Continues(total, events, Feed(cfg, View(), buffer[i..]))
      ensures !stop || err == Ok ==> Consistent(View())
    {
      hide Feed;
      i, stop, err := at, false, Ok;
      var setAfterRecordSep := false;
      var c := buffer[i];
      if c != cfg.comma && (c == '\n' || c == '\r') && !quoted {
        i, stop, err := ReadNewline(buffer, i, total);
        if stop {
          return;
        }
        setAfterRecordSep := true;
      } else if c != cfg.comma && c != '\n' && c != '\r' && quoted && c == cfg.escape {
        i, stop := ReadEscape(buffer, i, total);
        if stop {
          return;
        }
      } else {
        ReadOne(cfg, View(), buffer, i, total, events);
        if c != cfg.comma && c != '\n' && c != '\r' && c != '\"' && c != cfg.escape {
          currentField := currentField + [c];
        } else if c == cfg.comma {
          if !quoted {
            OnField();
            currentField := "";
            colIdx := colIdx + 1;
          } else {
            currentField := currentField + [c];
          }
        } else if c == '\n' || c == '\r' {
          currentField := currentField + [c];
        } else if c == '\"' {
          quoted := !quoted;
        } else {
          currentField := currentField + [c];
        }
      }
      afterRecordSep := setAfterRecordSep;
      i := i + 1;
    }

    // An unquoted line feed or carriage return at position at.
    method ReadNewline(buffer: string, at: nat, ghost total: Outcome) returns (i: nat, stop: bool, err: Error)
      requires at < |buffer| && Consistent(View()) && !escaping && !newlining && !quoted
      requires buffer[at] != cfg.comma && (buffer[at] == '\n' || buffer[at] == '\r')
      requires Continues(total, events, Feed(cfg, View(), buffer[at..]))
      modifies this
      ensures stop ==> err == total.err && events == total.events && (err == Ok ==> View() == total.state)
      ensures !stop ==> at <= i < |buffer| && !quoted && !escaping && !newlining && afterRecordSep
                        && Continues(total, events, Feed(cfg, View(), buffer[i + 1..]))
      ensures !stop || err == Ok ==> Consistent(View())
    {
      hide Feed;
      ReadOne(cfg, View(), buffer, at, total, events);
      i := at;
      if buffer[i] == '\r' {
        if i + 1 == |buffer| {
          newlining := true;
          NoInputLeft(cfg, View(), buffer);
          return i, true, Ok;
        }
        SettleOne(cfg, View().(newlining := true), buffer, i + 1, total, events);
        if buffer[i + 1] == '\n' {
          i := i + 1;
        }
      }
      err := FinishRecord();
      stop := err != Ok;
    }

    // The escape character inside quotes at position at.
    method ReadEscape(buffer: string, at: nat, ghost total: Outcome) returns (i: nat, stop: bool)
      requires at < |buffer| && Consistent(View()) && !escaping && !newlining && quoted
      requires buffer[at] == cfg.escape && buffer[at] != cfg.comma && buffer[at] != '\n' && buffer[at] != '\r'
      requires Continues(total, events, Feed(cfg, View(), buffer[at..]))
      modifies this
      ensures stop ==> Ok == total.err && events == total.events && View() == total.state
      ensures !stop ==> at <= i < |buffer| && !escaping && !newlining && !afterRecordSep
                        && Continues(total, events, Feed(cfg, View(), buffer[i + 1..]))
      ensures Consistent(View())
    {
      hide Feed;
      ReadOne(cfg, View(), buffer, at, total, events);
      i, stop := at, false;
      if i + 1 == |buffer| {
        escaping := true;
        NoInputLeft(cfg, View(), buffer);
        return i, true;
      }
      SettleOne(cfg, View().(escaping := true), buffer, i + 1, total, events);
      var c := buffer[i + 1];
      if cfg.escape == '\"' {
        if c == '\"' {
          i := i + 1;
          currentField := currentField + [c];
        } else {
          quoted := false;
        }
      } else if c == '\"' || c == cfg.escape {
        currentField := currentField + [c];
        i := i + 1;
      } else {
        currentField := currentField + [cfg.escape];
      }
    }

    // finish
    method Finish() returns (err: Error)
      requires Consistent(View())
      modifies this
      ensures var o := Finished(cfg, old(View()));
        err == o.err && events == old(events) + o.events
    {
      if quoted {
        return QuoteNotClosed;
      } else if newlining {
        err := Execute("");
      } else if !afterRecordSep {
        err := Execute("\n");
      } else {
        return Ok;
      }
    }
  }

  // What finish reports after the state s.
  function Finished(cfg: Config, s: State): Outcome {
    if s.quoted then Outcome(s, [], QuoteNotClosed)
    else if s.newlining then EndRecord(s)
    else if !s.afterRecordSep then Feed(cfg, s, "\n")
    else Outcome(s, [], Ok)
  }

  lemma NoInputLeft(cfg: Config, s: State, buffer: string)
    ensures Feed(cfg, s, buffer[|buffer|..]) == Outcome(s, [], Ok)
  {
    assert buffer[|buffer|..] == "";
  }

  lemma NoInput(cfg: Config, s: State)
    ensures Feed(cfg, s, "") == Outcome(s, [], Ok)
  {
  }

  // -------- chunk independence --------

  // Two buffers read one after the other, stopping at the first error.
  function Twice(cfg: Config, s: State, a: string, b: string): Outcome {
    var o := Execution(cfg, s, a);
    if o.err != Ok then o else Then(o, Execution(cfg, o.state, b))
  }

  // Feeding two non-empty chunks is feeding their concatenation: same fields, same code, same state
  // to go on from.
  lemma ChunksDoNotMatter(cfg: Config, s: State, a: string, b: string)
    requires a != "" && b != ""
    ensures Execution(cfg, s, a + b) == Twice(cfg, s, a, b)
  {
    FeedConcat(cfg, s, a, b);
  }

  // Any number of chunks.
  function InChunks(cfg: Config, s: State, chunks: seq<string>): Outcome {
    if chunks == [] then Outcome(s, [], Ok)
    else
      var o := InChunks(cfg, s, chunks[..|chunks| - 1]);
      if o.err != Ok then o else Then(o, Execution(cfg, o.state, chunks[|chunks| - 1]))
  }

  function Join(chunks: seq<string>): string {
    if chunks == [] then "" else Join(chunks[..|chunks| - 1]) + chunks[|chunks| - 1]
  }

  lemma {:induction false} AnyChunking(cfg: Config, s: State, chunks: seq<string>)
    requires forall i :: 0 <= i < |chunks| ==> chunks[i] != ""
    ensures InChunks(cfg, s, chunks) == Feed(cfg, s, Join(chunks))
  {
    hide Step;
    if chunks == [] {
    } else {
      var init, last := chunks[..|chunks| - 1], chunks[|chunks| - 1];
      AnyChunking(cfg, s, init);
      FeedConcat(cfg, s, Join(init), last);
    }
  }
}
