// How the text of one field can be written, with and without quotes, and how the parser reads it.
module CsvCells {
  import opened Csv

  // Quotes are doubled (section 2 of RFC 4180) or escaped with a backslash.
  predicate Dialect(cfg: Config) {
    && (cfg.escape == '\"' || cfg.escape == '\\')
    && cfg.comma != '\"' && cfg.comma != '\\' && cfg.comma != '\n' && cfg.comma != '\r'
  }

  // A character inside quotes, as it is or behind the escape character.
  datatype Item = Raw(c: char) | Esc(c: char)

  // A stretch of a field without or with quotes.
  datatype Piece = Bare(text: string) | Quoted(items: seq<Item>)

  datatype Cell = Cell(pieces: seq<Piece>)

  // What ends a stretch without quotes.
  predicate Special(cfg: Config, c: char) {
    c == cfg.comma || c == '\"' || c == '\n' || c == '\r'
  }

  predicate BareOk(cfg: Config, text: string) {
    forall i :: 0 <= i < |text| ==> !Special(cfg, text[i])
  }

  // The escape character written as it is.
  predicate RawEscape(cfg: Config, item: Item) {
    item == Raw(cfg.escape)
  }

  // Only quotes and escape characters are escaped.  An escape character stands for itself before any
  // other character (a quote never does).
  predicate ItemOk(cfg: Config, items: seq<Item>, k: nat)
    requires k < |items|
  {
    match items[k]
    case Esc(c) => c == '\"' || c == cfg.escape
    case Raw(c) => c != '\"' && (c == cfg.escape && k + 1 < |items| ==> items[k + 1].Raw? && items[k + 1].c != cfg.escape)
  }

  predicate ItemsOk(cfg: Config, items: seq<Item>) {
    forall k :: 0 <= k < |items| ==> ItemOk(cfg, items, k)
  }

  // The stretch can be closed: its last character would not escape the quote.
  predicate Closable(cfg: Config, items: seq<Item>) {
    ItemsOk(cfg, items) && (items != [] ==> !RawEscape(cfg, items[|items| - 1]))
  }

  predicate PieceOk(cfg: Config, p: Piece) {
    match p
    case Bare(text) => text != "" && BareOk(cfg, text)
    case Quoted(items) => Closable(cfg, items)
  }

  // With doubled quotes, two quoted stretches in a row would be one.
  predicate CellOk(cfg: Config, c: Cell) {
    && (forall k :: 0 <= k < |c.pieces| ==> PieceOk(cfg, c.pieces[k]))
    && forall k :: 0 < k < |c.pieces| && cfg.escape == '\"' && c.pieces[k].Quoted? ==> c.pieces[k - 1].Bare?
  }

  function ItemText(cfg: Config, item: Item): string {
    match item
    case Raw(c) => [c]
    case Esc(c) => [cfg.escape, c]
  }

  function ItemsText(cfg: Config, items: seq<Item>): string {
    if items == [] then "" else ItemsText(cfg, items[..|items| - 1]) + ItemText(cfg, items[|items| - 1])
  }

  function PieceText(cfg: Config, p: Piece): string {
    match p
    case Bare(text) => text
    case Quoted(items) => "\"" + ItemsText(cfg, items) + "\""
  }

  function WriteCell(cfg: Config, c: Cell): string
    decreases |c.pieces|
  {
    if c.pieces == [] then ""
    else WriteCell(cfg, Cell(c.pieces[..|c.pieces| - 1])) + PieceText(cfg, c.pieces[|c.pieces| - 1])
  }

  // -------- the field that is meant --------

  function Chars(items: seq<Item>): (r: string)
    ensures |r| == |items| && forall k :: 0 <= k < |items| ==> r[k] == items[k].c
  {
    seq(|items|, k requires 0 <= k < |items| => items[k].c)
  }

  function Meant(p: Piece): string {
    match p
    case Bare(text) => text
    case Quoted(items) => Chars(items)
  }

  function TextOf(c: Cell): string
    decreases |c.pieces|
  {
    if c.pieces == [] then "" else TextOf(Cell(c.pieces[..|c.pieces| - 1])) + Meant(c.pieces[|c.pieces| - 1])
  }

  predicate EndsQuoted(c: Cell) {
    c.pieces != [] && c.pieces[|c.pieces| - 1].Quoted?
  }

  // Any text can be written in quotes.
  function InQuotes(cfg: Config, text: string): Cell {
    Cell([Quoted(Escaped(cfg, text))])
  }

  function Escaped(cfg: Config, text: string): (r: seq<Item>)
    ensures |r| == |text|
    ensures forall k :: 0 <= k < |text| ==> r[k] == if text[k] == '\"' || text[k] == cfg.escape then Esc(text[k]) else Raw(text[k])
  {
    seq(|text|, k requires 0 <= k < |text| => if text[k] == '\"' || text[k] == cfg.escape then Esc(text[k]) else Raw(text[k]))
  }

  lemma AnyTextInQuotes(cfg: Config, text: string)
    ensures CellOk(cfg, InQuotes(cfg, text)) && TextOf(InQuotes(cfg, text)) == text
  {
    var c := InQuotes(cfg, text);
    assert TextOf(Cell(c.pieces[..0])) == "";
    assert Chars(Escaped(cfg, text)) == text;
  }

  // -------- reading inside quotes --------

  predicate Settled(s: State) {
    !s.escaping && !s.newlining
  }

  predicate InsideQuotes(s: State) {
    Settled(s) && s.quoted && !s.afterRecordSep
  }

  // The state after these characters: an escape character written as it is is still to be settled.
  function AfterItems(cfg: Config, s: State, items: seq<Item>): State {
    if items != [] && RawEscape(cfg, items[|items| - 1]) then
      s.(field := s.field + Chars(items[..|items| - 1]), escaping := true)
    else s.(field := s.field + Chars(items))
  }

  lemma {:induction false} ReadItems(cfg: Config, s: State, items: seq<Item>)
    requires Dialect(cfg) && InsideQuotes(s) && ItemsOk(cfg, items)
    ensures Feed(cfg, s, ItemsText(cfg, items)) == Outcome(AfterItems(cfg, s, items), [], Ok)
  {
    hide Step, Feed, ItemText, ItemOk;
    if items == [] {
      NoInput(cfg, s);
      assert s.field + Chars(items) == s.field;
    } else {
      var init, last := items[..|items| - 1], items[|items| - 1];
      ItemsPrefix(cfg, items);
      ReadItems(cfg, s, init);
      FeedConcat(cfg, s, ItemsText(cfg, init), ItemText(cfg, last));
      assert Chars(items) == Chars(init) + [last.c];
      if init != [] && RawEscape(cfg, init[|init| - 1]) {
        ReadAfterRawEscape(cfg, AfterItems(cfg, s, init), last);
        assert Chars(init) == Chars(init[..|init| - 1]) + [cfg.escape];
        assert s.field + Chars(items) == s.field + Chars(init[..|init| - 1]) + [cfg.escape, last.c];
      } else {
        ReadItem(cfg, s.(field := s.field + Chars(init)), last);
        assert s.field + Chars(init) + [last.c] == s.field + Chars(items);
      }
    }
  }

  lemma ItemsPrefix(cfg: Config, items: seq<Item>)
    requires ItemsOk(cfg, items) && items != []
    ensures var init, last := items[..|items| - 1], items[|items| - 1];
      && ItemsOk(cfg, init) && LoneItemOk(cfg, last)
      && (init != [] && RawEscape(cfg, init[|init| - 1]) ==> last.Raw? && last.c != '\"' && last.c != cfg.escape && cfg.escape != '\"')
  {
    var j := |items| - 1;
    assert ItemOk(cfg, items, j);
    forall k | 0 <= k < j
      ensures ItemOk(cfg, items[..j], k)
    {
      assert ItemOk(cfg, items, k);
    }
    if j > 0 {
      assert ItemOk(cfg, items, j - 1);
    }
  }

  predicate LoneItemOk(cfg: Config, item: Item) {
    match item
    case Esc(c) => c == '\"' || c == cfg.escape
    case Raw(c) => c != '\"'
  }

  lemma ReadItem(cfg: Config, s: State, item: Item)
    requires Dialect(cfg) && InsideQuotes(s) && LoneItemOk(cfg, item)
    ensures Feed(cfg, s, ItemText(cfg, item)) ==
      Outcome(if RawEscape(cfg, item) then s.(escaping := true) else s.(field := s.field + [item.c]), [], Ok)
  {
    match item
    case Raw(c) =>
      One(cfg, s, c);
    case Esc(c) =>
      var t := s.(escaping := true);
      assert Step(cfg, s, cfg.escape) == Outcome(t, [], Ok);
      FeedFront(cfg, s, cfg.escape, [c]);
      One(cfg, t, c);
      assert [cfg.escape] + [c] == [cfg.escape, c];
  }

  // A single character.
  lemma One(cfg: Config, s: State, c: char)
    ensures Feed(cfg, s, [c]) == Step(cfg, s, c)
  {
    FeedSnoc(cfg, s, "", c);
    NoInput(cfg, s);
    assert "" + [c] == [c];
  }

  lemma ReadAfterRawEscape(cfg: Config, s: State, item: Item)
    requires Dialect(cfg) && s.quoted && s.escaping && !s.newlining && !s.afterRecordSep
    requires cfg.escape != '\"' && item.Raw? && item.c != '\"' && item.c != cfg.escape
    ensures Feed(cfg, s, ItemText(cfg, item)) == Outcome(s.(escaping := false, field := s.field + [cfg.escape, item.c]), [], Ok)
  {
    One(cfg, s, item.c);
    assert s.field + [cfg.escape] + [item.c] == s.field + [cfg.escape, item.c];
  }

  // -------- reading cells --------

  // Where the parser is before a cell.
  predicate AtCell(s: State) {
    Settled(s) && !s.quoted && s.field == ""
  }

  // Where it is after these pieces: with doubled quotes, a closing quote is not yet known to close.
  function AfterCell(cfg: Config, s: State, c: Cell): State {
    var t := s.(field := TextOf(c), afterRecordSep := s.afterRecordSep && c.pieces == []);
    if EndsQuoted(c) && cfg.escape == '\"' then t.(quoted := true, escaping := true) else t
  }

  predicate BetweenPieces(cfg: Config, s: State) {
    && !s.newlining && (s.quoted ==> cfg.escape == '\"' && !s.afterRecordSep) && s.escaping == s.quoted
  }

  // Outside quotes, text without special characters is taken as it is; a closing quote before it closes.
  lemma {:induction false} ReadBare(cfg: Config, s: State, text: string)
    requires Dialect(cfg) && BetweenPieces(cfg, s) && text != "" && BareOk(cfg, text)
    ensures Feed(cfg, s, text) == Outcome(s.(quoted := false, escaping := false, field := s.field + text, afterRecordSep := false), [], Ok)
  {
    hide Step, Feed, Special;
    var init, c := text[..|text| - 1], text[|text| - 1];
    assert text == init + [c];
    if init == "" {
      BareChar(cfg, s, c);
      One(cfg, s, c);
      assert text == [c];
    } else {
      ReadBare(cfg, s, init);
      BareChar(cfg, s.(quoted := false, escaping := false, field := s.field + init, afterRecordSep := false), c);
      FeedSnoc(cfg, s, init, c);
      assert s.field + init + [c] == s.field + text;
    }
  }

  lemma BareChar(cfg: Config, s: State, c: char)
    requires Dialect(cfg) && BetweenPieces(cfg, s) && !Special(cfg, c)
    ensures Step(cfg, s, c) == Outcome(s.(quoted := false, escaping := false, field := s.field + [c], afterRecordSep := false), [], Ok)
  {
  }

  // An opening quote and what follows it.
  lemma ReadOpening(cfg: Config, s: State, items: seq<Item>)
    requires Dialect(cfg) && BetweenPieces(cfg, s) && !s.quoted && ItemsOk(cfg, items)
    ensures Feed(cfg, s, "\"" + ItemsText(cfg, items)) == Outcome(AfterItems(cfg, s.(quoted := true, afterRecordSep := false), items), [], Ok)
  {
    var t := s.(quoted := true, afterRecordSep := false);
    assert Step(cfg, s, '\"') == Outcome(t, [], Ok);
    hide Step, Feed;
    ReadItems(cfg, t, items);
    FeedFront(cfg, s, '\"', ItemsText(cfg, items));
    assert "\"" + ItemsText(cfg, items) == ['\"'] + ItemsText(cfg, items);
  }

  lemma ClosingQuote(cfg: Config, s: State)
    requires Dialect(cfg) && InsideQuotes(s)
    ensures Step(cfg, s, '\"') == Outcome(if cfg.escape == '\"' then s.(escaping := true) else s.(quoted := false), [], Ok)
  {
  }

  lemma ReadQuoted(cfg: Config, s: State, items: seq<Item>)
    requires Dialect(cfg) && BetweenPieces(cfg, s) && !s.quoted && Closable(cfg, items)
    ensures var t := s.(field := s.field + Chars(items), afterRecordSep := false);
      Feed(cfg, s, PieceText(cfg, Quoted(items))) == Outcome(if cfg.escape == '\"' then t.(quoted := true, escaping := true) else t, [], Ok)
  {
    hide Step, Feed, ItemsOk;
    ReadOpening(cfg, s, items);
    var t := s.(quoted := true, field := s.field + Chars(items), afterRecordSep := false);
    ClosingQuote(cfg, t);
    FeedSnoc(cfg, s, "\"" + ItemsText(cfg, items), '\"');
    assert PieceText(cfg, Quoted(items)) == "\"" + ItemsText(cfg, items) + ['\"'];
  }

  lemma {:induction false} ReadCell(cfg: Config, s: State, c: Cell)
    requires Dialect(cfg) && AtCell(s) && CellOk(cfg, c)
    ensures Feed(cfg, s, WriteCell(cfg, c)) == Outcome(AfterCell(cfg, s, c), [], Ok)
    decreases |c.pieces|
  {
    hide Feed, PieceText, BareOk, Closable;
    if c.pieces == [] {
      NoInput(cfg, s);
    } else {
      var init, last := Cell(c.pieces[..|c.pieces| - 1]), c.pieces[|c.pieces| - 1];
      ReadCell(cfg, s, init);
      FeedConcat(cfg, s, WriteCell(cfg, init), PieceText(cfg, last));
      var t := AfterCell(cfg, s, init);
      match last
      case Bare(text) =>
        ReadBare(cfg, t, text);
        assert PieceText(cfg, last) == text by { BareText(cfg, text); }
      case Quoted(items) =>
        ReadQuoted(cfg, t, items);
    }
  }

  lemma BareText(cfg: Config, text: string)
    ensures PieceText(cfg, Bare(text)) == text
  {
  }

  // What a cell is written as begins with no line feed, and is empty only for a cell without pieces.
  lemma {:induction false} WriteCellFirst(cfg: Config, c: Cell)
    requires Dialect(cfg) && CellOk(cfg, c)
    ensures WriteCell(cfg, c) == "" <==> c.pieces == []
    ensures WriteCell(cfg, c) != "" ==> WriteCell(cfg, c)[0] != '\n'
    decreases |c.pieces|
  {
    if c.pieces != [] {
      var init, last := Cell(c.pieces[..|c.pieces| - 1]), c.pieces[|c.pieces| - 1];
      WriteCellFirst(cfg, init);
      if last.Bare? {
        assert !Special(cfg, last.text[0]);
      }
    }
  }
}
