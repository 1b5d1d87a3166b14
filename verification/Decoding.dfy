// From words back to rows of values: what the word-level join means for the values.
module Decoding {
  import opened Options
  import opened SeqFacts
  import opened PageBytes
  import opened ValueWords
  import opened Tables
  import opened Late
  import opened ColumnPages
  import opened ProbeWorkers
  import opened NestedLoops
  import opened Plans
  import Join
  import Scan

  // A column of an intermediate result, by value.
  datatype ColumnView = ColumnView(dtype: DataType, pages: seq<ColumnPage>, isNoNull: bool, originalPages: seq<Bytes>)

  ghost predicate NoReferences(words: seq<Word>) {
    forall i :: 0 <= i < |words| ==> !IsInt32NoNull(words[i])
  }

  // The column holds these values; its words are cell references only if it says so.
  ghost predicate ColumnHolds(inputs: seq<ColumnarTable>, t: DataType, c: ColumnView, fields: seq<Field>, layout: seq<nat>) {
    && AllValid(c.pages) && Layout(c.pages) == layout
    && Scan.Holds(inputs, t, c.originalPages, Words(c.pages), fields)
    && (c.isNoNull || NoReferences(Words(c.pages)))
    && (c.dtype == t || (c.dtype == INT32 && fields == []))
  }

  // The columns of a node hold these rows.
  ghost predicate NodeHolds(inputs: seq<ColumnarTable>, attrs: seq<Attr>, cols: seq<ColumnView>, rows: seq<FieldRow>, layout: seq<nat>) {
    && |cols| == |attrs|
    && (forall i :: 0 <= i < |rows| ==> |rows[i]| == |attrs|)
    && (forall j :: 0 <= j < |attrs| ==> ColumnHolds(inputs, attrs[j].dtype, cols[j], FieldColumn(rows, j), layout))
    && (forall p :: 0 <= p < |layout| ==> layout[p] <= 1024)
  }

  function PagesOf(cols: seq<ColumnView>): (r: seq<seq<ColumnPage>>)
    ensures |r| == |cols| && forall j :: 0 <= j < |cols| ==> r[j] == cols[j].pages
  {
    seq(|cols|, j requires 0 <= j < |cols| => cols[j].pages)
  }

  // -------- words and addresses --------

  // The i-th word of a column is the word at the i-th address.
  lemma {:induction false} WordsAtAddresses(pages: seq<ColumnPage>)
    requires AllValid(pages)
    ensures |Words(pages)| == |Addresses(Layout(pages))|
    ensures forall i :: 0 <= i < |Words(pages)| ==> Words(pages)[i] == Join.WordAt(pages, Addresses(Layout(pages))[i])
  {
    WordsAtPrefix(pages, |pages|);
    assert pages[..|pages|] == pages;
  }

  lemma {:induction false} WordsAtPrefix(pages: seq<ColumnPage>, k: nat)
    requires AllValid(pages) && k <= |pages|
    ensures |Words(pages[..k])| == |Addresses(Layout(pages[..k]))|
    ensures forall i :: 0 <= i < |Words(pages[..k])| ==> Words(pages[..k])[i] == Join.WordAt(pages, Addresses(Layout(pages[..k]))[i])
  {
    hide Words, Join.WordAt;
    if k == 0 {
      NoneBefore(pages);
    } else {
      WordsAtPrefix(pages, k - 1);
      var page := pages[k - 1];
      WordsSnoc(pages[..k]);
      assert pages[..k][..k - 1] == pages[..k - 1];
      assert Layout(pages[..k])[..k - 1] == Layout(pages[..k - 1]);
      var n := |Words(pages[..k - 1])|;
      forall s | 0 <= s < page.count
        ensures page.Values()[s] == Join.WordAt(pages, (k - 1) * 1024 + s)
      {
        Join.AddressOf(pages, k - 1, s);
      }
    }
  }

  // -------- decoding --------

  function ResolveAny(inputs: seq<ColumnarTable>, t: DataType, original: seq<Bytes>, w: Word): Field {
    if Resolvable(inputs, t, original, w) then Resolve(inputs, t, original, w) else Field.Null
  }

  // The row of values at an address.
  function RowAt(inputs: seq<ColumnarTable>, attrs: seq<Attr>, cols: seq<ColumnView>): nat -> FieldRow {
    (a: nat) => seq(|attrs|, j requires 0 <= j < |attrs| =>
      if j < |cols| then ResolveAny(inputs, attrs[j].dtype, cols[j].originalPages, Join.WordAt(cols[j].pages, a)) else Field.Null)
  }

  // The row of values in a row of words.
  function Decode(inputs: seq<ColumnarTable>, attrs: seq<Attr>, originals: seq<seq<Bytes>>): Join.Row -> FieldRow {
    (w: Join.Row) => seq(|attrs|, j requires 0 <= j < |attrs| =>
      if j < |w| && j < |originals| then ResolveAny(inputs, attrs[j].dtype, originals[j], w[j]) else Field.Null)
  }

  // The rows of a node, read address by address.
  lemma RowsAtAddresses(inputs: seq<ColumnarTable>, attrs: seq<Attr>, cols: seq<ColumnView>, rows: seq<FieldRow>, layout: seq<nat>)
    requires NodeHolds(inputs, attrs, cols, rows, layout) && attrs != []
    ensures Map(RowAt(inputs, attrs, cols), Addresses(layout)) == rows
  {
    hide Words, Addresses, Resolve, Resolvable, Join.WordAt;
    WordsAtAddresses(cols[0].pages);
    assert ColumnHolds(inputs, attrs[0].dtype, cols[0], FieldColumn(rows, 0), layout);
    assert |Addresses(layout)| == |rows|;
    forall i | 0 <= i < |rows|
      ensures RowAt(inputs, attrs, cols)(Addresses(layout)[i]) == rows[i]
    {
      var row := RowAt(inputs, attrs, cols)(Addresses(layout)[i]);
      forall j | 0 <= j < |attrs|
        ensures row[j] == rows[i][j]
      {
        ValueAt(inputs, attrs[j].dtype, cols[j], FieldColumn(rows, j), layout, i);
      }
    }
  }

  // The word at the i-th address resolves to the i-th value.
  lemma ValueAt(inputs: seq<ColumnarTable>, t: DataType, c: ColumnView, fields: seq<Field>, layout: seq<nat>, i: nat)
    requires ColumnHolds(inputs, t, c, fields, layout) && i < |fields|
    ensures |Addresses(layout)| == |fields|
    ensures var w := Join.WordAt(c.pages, Addresses(layout)[i]);
      Resolvable(inputs, t, c.originalPages, w) && Resolve(inputs, t, c.originalPages, w) == fields[i]
      && (c.isNoNull || !IsInt32NoNull(w))
  {
    hide Words, Addresses, Resolve, Resolvable, Join.WordAt, IsInt32NoNull;
    WordsAtAddresses(c.pages);
  }

  // -------- the key columns --------

  lemma KeyIsField(inputs: seq<ColumnarTable>, original: seq<Bytes>, w: Word)
    requires ResolvableInt(original, w)
    ensures var f := ResolveInt(original, w);
      Join.KeyOf(original, w) == if f.Int? then Some(f.v) else None
    ensures !IsVarchar(w) && Join.CellOk(original, w)
  {
  }

  lemma WordIndex(pages: seq<ColumnPage>, p: nat, s: nat)
    requires AllValid(pages) && p < |pages| && s < pages[p].count
    ensures exists i :: 0 <= i < |Words(pages)| && Words(pages)[i] == pages[p].buffer[s]
  {
    hide Words;
    PageOfWords(pages, p);
    var i := |Words(pages[..p])| + s;
    assert Words(pages)[i] == pages[p].buffer[s];
  }

  // An INT32 column has no words that a join would refuse.
  lemma KeyColumnOk(inputs: seq<ColumnarTable>, c: ColumnView, fields: seq<Field>, layout: seq<nat>)
    requires ColumnHolds(inputs, INT32, c, fields, layout)
    ensures Join.HasCells(c.pages, c.originalPages) && Join.AllKeys(c.pages)
  {
    hide Words, Join.CellOk, IsVarchar, ResolvableInt, ResolveInt;
    forall p, s | 0 <= p < |c.pages| && 0 <= s < c.pages[p].count && s < |c.pages[p].buffer|
      ensures Join.CellOk(c.originalPages, c.pages[p].buffer[s]) && !IsVarchar(c.pages[p].buffer[s])
    {
      WordIndex(c.pages, p, s);
      KeyIsField(inputs, c.originalPages, c.pages[p].buffer[s]);
    }
  }

  // -------- the join --------

  // The two sides of a join and their contents.
  datatype Side = Side(attrs: seq<Attr>, cols: seq<ColumnView>, rows: seq<FieldRow>, layout: seq<nat>, key: nat)

  ghost predicate SideOk(inputs: seq<ColumnarTable>, s: Side) {
    && NodeHolds(inputs, s.attrs, s.cols, s.rows, s.layout)
    && s.key < |s.attrs| && s.attrs[s.key].dtype == INT32
  }

  function OperandsOf(l: Side, r: Side, attrs: seq<Attr>): Join.Operands
    requires l.key < |l.cols| && r.key < |r.cols|
  {
    Join.Operands(PagesOf(l.cols), PagesOf(r.cols), l.cols[l.key].originalPages, r.cols[r.key].originalPages,
                  l.key, r.key, Indices(attrs))
  }

  ghost predicate OutputsOk(l: Side, r: Side, attrs: seq<Attr>) {
    forall j :: 0 <= j < |attrs| ==>
      attrs[j].index < |l.attrs| + |r.attrs| && attrs[j].dtype == (l.attrs + r.attrs)[attrs[j].index].dtype
  }

  lemma OperandsValid(inputs: seq<ColumnarTable>, l: Side, r: Side, attrs: seq<Attr>)
    requires SideOk(inputs, l) && SideOk(inputs, r) && OutputsOk(l, r, attrs)
    ensures OperandsOf(l, r, attrs).Valid()
    ensures Layout(l.cols[l.key].pages) == l.layout && Layout(r.cols[r.key].pages) == r.layout
    ensures Join.AllKeys(l.cols[l.key].pages) && Join.AllKeys(r.cols[r.key].pages)
  {
    hide Words, Scan.Holds, Join.HasCells, Join.AllKeys, NoReferences;
    KeyColumnOk(inputs, l.cols[l.key], FieldColumn(l.rows, l.key), l.layout);
    KeyColumnOk(inputs, r.cols[r.key], FieldColumn(r.rows, r.key), r.layout);
    forall j | 0 <= j < |l.cols|
      ensures AllValid(l.cols[j].pages) && Layout(l.cols[j].pages) == l.layout
    {
      assert ColumnHolds(inputs, l.attrs[j].dtype, l.cols[j], FieldColumn(l.rows, j), l.layout);
    }
    forall j | 0 <= j < |r.cols|
      ensures AllValid(r.cols[j].pages) && Layout(r.cols[j].pages) == r.layout
    {
      assert ColumnHolds(inputs, r.attrs[j].dtype, r.cols[j], FieldColumn(r.rows, j), r.layout);
    }
  }

  // The key at an address is the key of the row there.
  lemma KeyAt(inputs: seq<ColumnarTable>, s: Side, i: nat)
    requires SideOk(inputs, s) && i < |s.rows|
    ensures |Addresses(s.layout)| == |s.rows|
    ensures Join.KeyIn(PagesOf(s.cols), s.key, s.cols[s.key].originalPages)(Addresses(s.layout)[i])
         == if s.rows[i][s.key].Int? then Some(s.rows[i][s.key].v) else None
  {
    hide Words, Addresses, Scan.Holds, Join.KeyOf, ResolvableInt, ResolveInt, Join.WordAt;
    ValueAt(inputs, INT32, s.cols[s.key], FieldColumn(s.rows, s.key), s.layout, i);
    KeyIsField(inputs, s.cols[s.key].originalPages, Join.WordAt(s.cols[s.key].pages, Addresses(s.layout)[i]));
  }

  // original_pages that an output column inherits.
  function Inherited(l: seq<ColumnView>, r: seq<ColumnView>, index: nat): seq<Bytes> {
    if index < |l| && l[index].isNoNull then l[index].originalPages
    else if index >= |l| && index - |l| < |r| && r[index - |l|].isNoNull then r[index - |l|].originalPages
    else []
  }

  function Originals(l: Side, r: Side, attrs: seq<Attr>): (o: seq<seq<Bytes>>)
    ensures |o| == |attrs| && forall j :: 0 <= j < |attrs| ==> o[j] == Inherited(l.cols, r.cols, attrs[j].index)
  {
    seq(|attrs|, j requires 0 <= j < |attrs| => Inherited(l.cols, r.cols, attrs[j].index))
  }

  // A word means the same in the output column as in the column it came from.
  lemma InheritedReads(inputs: seq<ColumnarTable>, t: DataType, c: ColumnView, w: Word)
    requires Resolvable(inputs, t, c.originalPages, w) && (c.isNoNull || !IsInt32NoNull(w))
    ensures var o := if c.isNoNull then c.originalPages else [];
      Resolvable(inputs, t, o, w) && Resolve(inputs, t, o, w) == Resolve(inputs, t, c.originalPages, w)
  {
  }

  // Output column j of the rows at two addresses.
  lemma OutValue(inputs: seq<ColumnarTable>, l: Side, r: Side, attrs: seq<Attr>, x: nat, y: nat, j: nat)
    requires SideOk(inputs, l) && SideOk(inputs, r) && OutputsOk(l, r, attrs)
    requires x < |l.rows| && y < |r.rows| && j < |attrs|
    ensures |Addresses(l.layout)| == |l.rows| && |Addresses(r.layout)| == |r.rows|
    ensures var w := OperandsOf(l, r, attrs).OutWord(j, Addresses(l.layout)[x], Addresses(r.layout)[y]);
      var o := Inherited(l.cols, r.cols, attrs[j].index);
      && Resolvable(inputs, attrs[j].dtype, o, w)
      && Resolve(inputs, attrs[j].dtype, o, w) == (l.rows[x] + r.rows[y])[attrs[j].index]
      && (Kept(l.cols, r.cols, attrs[j].index) || !IsInt32NoNull(w))
  {
    hide Words, Addresses, Scan.Holds, Resolvable, Resolve, Join.WordAt, IsInt32NoNull;
    ValueAt(inputs, l.attrs[l.key].dtype, l.cols[l.key], FieldColumn(l.rows, l.key), l.layout, x);
    ValueAt(inputs, r.attrs[r.key].dtype, r.cols[r.key], FieldColumn(r.rows, r.key), r.layout, y);
    var index := attrs[j].index;
    if index < |l.cols| {
      ValueAt(inputs, l.attrs[index].dtype, l.cols[index], FieldColumn(l.rows, index), l.layout, x);
      InheritedReads(inputs, attrs[j].dtype, l.cols[index], Join.WordAt(l.cols[index].pages, Addresses(l.layout)[x]));
    } else {
      var k := index - |l.cols|;
      ValueAt(inputs, r.attrs[k].dtype, r.cols[k], FieldColumn(r.rows, k), r.layout, y);
      InheritedReads(inputs, attrs[j].dtype, r.cols[k], Join.WordAt(r.cols[k].pages, Addresses(r.layout)[y]));
    }
  }

  // is_no_null of an output column
  predicate Kept(l: seq<ColumnView>, r: seq<ColumnView>, index: nat) {
    (index < |l| && l[index].isNoNull) || (index >= |l| && index - |l| < |r| && r[index - |l|].isNoNull)
  }

  // The nested-loop join of the words, decoded, is the nested-loop join of the values.
  lemma DecodedJoin(inputs: seq<ColumnarTable>, l: Side, r: Side, attrs: seq<Attr>)
    requires SideOk(inputs, l) && SideOk(inputs, r) && OutputsOk(l, r, attrs)
    ensures OperandsOf(l, r, attrs).Valid()
    ensures Map(Decode(inputs, attrs, Originals(l, r, attrs)), OperandsOf(l, r, attrs).NestedLoop())
         == Pairs(l.rows, r.rows, FieldMatch(l.key, r.key), FieldOut(attrs))
  {
    hide Words, Addresses, Scan.Holds, Resolvable, Resolve, Join.WordAt, Join.KeyIn, Join.HasCells, Join.SameLayout, Map, Pairs, ColumnHolds;
    var ops := OperandsOf(l, r, attrs);
    OperandsValid(inputs, l, r, attrs);
    RowsAtAddresses(inputs, l.attrs, l.cols, l.rows, l.layout);
    RowsAtAddresses(inputs, r.attrs, r.cols, r.rows, r.layout);
    var f, g := RowAt(inputs, l.attrs, l.cols), RowAt(inputs, r.attrs, r.cols);
    var las, ras := Addresses(l.layout), Addresses(r.layout);
    forall x, y | 0 <= x < |las| && 0 <= y < |ras|
      ensures ops.Match()(las[x], ras[y]) == FieldMatch(l.key, r.key)(f(las[x]), g(ras[y]))
      ensures Decode(inputs, attrs, Originals(l, r, attrs))(ops.Out()(las[x], ras[y])) == FieldOut(attrs)(f(las[x]), g(ras[y]))
    {
      PairDecoded(inputs, l, r, attrs, x, y);
    }
    PairsMap(las, ras, ops.Match(), ops.Out(), f, g, Decode(inputs, attrs, Originals(l, r, attrs)), FieldMatch(l.key, r.key), FieldOut(attrs));
  }

  lemma RowHere(inputs: seq<ColumnarTable>, s: Side, x: nat)
    requires SideOk(inputs, s) && x < |Addresses(s.layout)|
    ensures x < |s.rows| && RowAt(inputs, s.attrs, s.cols)(Addresses(s.layout)[x]) == s.rows[x]
  {
    hide Addresses, ColumnHolds, RowAt;
    RowsAtAddresses(inputs, s.attrs, s.cols, s.rows, s.layout);
    assert Map(RowAt(inputs, s.attrs, s.cols), Addresses(s.layout))[x] == s.rows[x];
  }

  lemma PairDecoded(inputs: seq<ColumnarTable>, l: Side, r: Side, attrs: seq<Attr>, x: nat, y: nat)
    requires SideOk(inputs, l) && SideOk(inputs, r) && OutputsOk(l, r, attrs)
    requires x < |Addresses(l.layout)| && y < |Addresses(r.layout)|
    ensures var ops, f, g := OperandsOf(l, r, attrs), RowAt(inputs, l.attrs, l.cols), RowAt(inputs, r.attrs, r.cols);
      var a, b := Addresses(l.layout)[x], Addresses(r.layout)[y];
      && ops.Match()(a, b) == FieldMatch(l.key, r.key)(f(a), g(b))
      && Decode(inputs, attrs, Originals(l, r, attrs))(ops.Out()(a, b)) == FieldOut(attrs)(f(a), g(b))
  {
    hide *;
    RowHere(inputs, l, x);
    RowHere(inputs, r, y);
    MatchDecoded(inputs, l, r, attrs, x, y);
    OutDecoded(inputs, l, r, attrs, x, y);
  }

  lemma MatchDecoded(inputs: seq<ColumnarTable>, l: Side, r: Side, attrs: seq<Attr>, x: nat, y: nat)
    requires SideOk(inputs, l) && SideOk(inputs, r)
    requires x < |Addresses(l.layout)| && y < |Addresses(r.layout)| && x < |l.rows| && y < |r.rows|
    ensures OperandsOf(l, r, attrs).Match()(Addresses(l.layout)[x], Addresses(r.layout)[y])
         == FieldMatch(l.key, r.key)(l.rows[x], r.rows[y])
  {
    hide Addresses, ColumnHolds, Join.KeyIn;
    KeyAt(inputs, l, x);
    KeyAt(inputs, r, y);
    var ops, a, b := OperandsOf(l, r, attrs), Addresses(l.layout)[x], Addresses(r.layout)[y];
    var u, v := l.rows[x][l.key], r.rows[y][r.key];
    assert ops.LeftKey()(a) == if u.Int? then Some(u.v) else None;
    assert ops.RightKey()(b) == if v.Int? then Some(v.v) else None;
    assert ops.Match()(a, b) == (u.Int? && u == v);
  }

  lemma OutDecoded(inputs: seq<ColumnarTable>, l: Side, r: Side, attrs: seq<Attr>, x: nat, y: nat)
    requires SideOk(inputs, l) && SideOk(inputs, r) && OutputsOk(l, r, attrs)
    requires x < |Addresses(l.layout)| && y < |Addresses(r.layout)| && x < |l.rows| && y < |r.rows|
    ensures Decode(inputs, attrs, Originals(l, r, attrs))(OperandsOf(l, r, attrs).Out()(Addresses(l.layout)[x], Addresses(r.layout)[y]))
         == FieldOut(attrs)(l.rows[x], r.rows[y])
  {
    hide Addresses, ColumnHolds, Resolvable, Resolve, Join.Operands.OutWord, Inherited, Kept;
    var a, b := Addresses(l.layout)[x], Addresses(r.layout)[y];
    var ops := OperandsOf(l, r, attrs);
    var decoded, out := Decode(inputs, attrs, Originals(l, r, attrs))(ops.Out()(a, b)), FieldOut(attrs)(l.rows[x], r.rows[y]);
    forall j | 0 <= j < |attrs|
      ensures decoded[j] == out[j]
    {
      OutValue(inputs, l, r, attrs, x, y, j);
      assert ops.Out()(a, b)[j] == ops.OutWord(j, a, b);
    }
    assert decoded == out;
  }

  // -------- the output of a join --------

  // Every row of the word-level join has readable words.
  lemma JoinWord(inputs: seq<ColumnarTable>, l: Side, r: Side, attrs: seq<Attr>, row: Join.Row, j: nat)
    requires SideOk(inputs, l) && SideOk(inputs, r) && OutputsOk(l, r, attrs) && j < |attrs|
    requires OperandsOf(l, r, attrs).Valid() && row in OperandsOf(l, r, attrs).NestedLoop()
    ensures |row| == |attrs|
    ensures Resolvable(inputs, attrs[j].dtype, Inherited(l.cols, r.cols, attrs[j].index), row[j])
    ensures Kept(l.cols, r.cols, attrs[j].index) || !IsInt32NoNull(row[j])
  {
    hide Addresses, ColumnHolds, Resolvable, Resolve, Join.Operands.OutWord, Inherited, Kept, Pairs, Join.HasCells, Join.SameLayout;
    var ops := OperandsOf(l, r, attrs);
    OperandsValid(inputs, l, r, attrs);
    var k :| 0 <= k < |ops.NestedLoop()| && ops.NestedLoop()[k] == row;
    PairsFrom(ops.LeftAddresses(), ops.RightAddresses(), ops.Match(), ops.Out(), k);
    var x, y :| 0 <= x < |Addresses(l.layout)| && 0 <= y < |Addresses(r.layout)| && row == ops.Out()(Addresses(l.layout)[x], Addresses(r.layout)[y]);
    RowHere(inputs, l, x);
    RowHere(inputs, r, y);
    OutValue(inputs, l, r, attrs, x, y, j);
  }

  // An output column of a join, given its words.
  ghost predicate OutputColumn(l: Side, r: Side, attr: Attr, c: ColumnView, words: seq<Join.Row>, layout: seq<nat>, j: nat) {
    && Join.ColumnIs(c.pages, words, j, layout) && c.dtype == attr.dtype
    && c.originalPages == Inherited(l.cols, r.cols, attr.index)
    && c.isNoNull == Kept(l.cols, r.cols, attr.index)
  }

  lemma OutputHolds(inputs: seq<ColumnarTable>, l: Side, r: Side, attrs: seq<Attr>, c: ColumnView,
                    words: seq<Join.Row>, layout: seq<nat>, j: nat)
    requires SideOk(inputs, l) && SideOk(inputs, r) && OutputsOk(l, r, attrs) && j < |attrs|
    requires OperandsOf(l, r, attrs).Valid() && multiset(words) == multiset(OperandsOf(l, r, attrs).NestedLoop())
    requires OutputColumn(l, r, attrs[j], c, words, layout, j)
    ensures ColumnHolds(inputs, attrs[j].dtype, c, FieldColumn(Map(Decode(inputs, attrs, Originals(l, r, attrs)), words), j), layout)
  {
    hide Join.Operands.Valid, Join.Operands.NestedLoop, Resolvable, Resolve, Inherited, Kept, Words, AllValid, NodeHolds, IsInt32NoNull;
    SideKey(inputs, l);
    SideKey(inputs, r);
    var decode := Decode(inputs, attrs, Originals(l, r, attrs));
    var rows := Map(decode, words);
    forall i | 0 <= i < |words|
      ensures Resolvable(inputs, attrs[j].dtype, c.originalPages, Words(c.pages)[i])
      ensures Resolve(inputs, attrs[j].dtype, c.originalPages, Words(c.pages)[i]) == FieldColumn(rows, j)[i]
      ensures c.isNoNull || !IsInt32NoNull(Words(c.pages)[i])
    {
      assert words[i] in multiset(words);
      JoinWord(inputs, l, r, attrs, words[i], j);
      assert rows[i] == decode(words[i]);
    }
  }

  // Columns that hold the word-level join hold the join of the values.
  lemma JoinResult(inputs: seq<ColumnarTable>, l: Side, r: Side, attrs: seq<Attr>, cols: seq<ColumnView>,
                   words: seq<Join.Row>, layout: seq<nat>) returns (rows: seq<FieldRow>)
    requires SideOk(inputs, l) && SideOk(inputs, r) && OutputsOk(l, r, attrs) && attrs != []
    requires OperandsOf(l, r, attrs).Valid() && multiset(words) == multiset(OperandsOf(l, r, attrs).NestedLoop())
    requires |cols| == |attrs| && forall j :: 0 <= j < |attrs| ==> OutputColumn(l, r, attrs[j], cols[j], words, layout, j)
    ensures NodeHolds(inputs, attrs, cols, rows, layout) && |rows| == |words|
    ensures multiset(rows) == multiset(Pairs(l.rows, r.rows, FieldMatch(l.key, r.key), FieldOut(attrs)))
  {
    hide Join.Operands.Valid, Join.Operands.NestedLoop, Pairs, NodeHolds, OutputsOk, ColumnHolds, OutputColumn, FieldMatch, FieldOut;
    SideKey(inputs, l);
    SideKey(inputs, r);
    var decode := Decode(inputs, attrs, Originals(l, r, attrs));
    rows := Map(decode, words);
    DecodedJoin(inputs, l, r, attrs);
    MapMultiset(decode, words, OperandsOf(l, r, attrs).NestedLoop());
    forall j | 0 <= j < |attrs|
      ensures ColumnHolds(inputs, attrs[j].dtype, cols[j], FieldColumn(rows, j), layout)
    {
      OutputHolds(inputs, l, r, attrs, cols[j], words, layout, j);
    }
    RowsHeld(inputs, attrs, cols, rows, layout);
  }

  lemma SideKey(inputs: seq<ColumnarTable>, s: Side)
    requires SideOk(inputs, s)
    ensures s.key < |s.cols|
  {
  }

  lemma RowsHeld(inputs: seq<ColumnarTable>, attrs: seq<Attr>, cols: seq<ColumnView>, rows: seq<FieldRow>, layout: seq<nat>)
    requires attrs != [] && |cols| == |attrs| && forall i :: 0 <= i < |rows| ==> |rows[i]| == |attrs|
    requires forall j :: 0 <= j < |attrs| ==> ColumnHolds(inputs, attrs[j].dtype, cols[j], FieldColumn(rows, j), layout)
    ensures NodeHolds(inputs, attrs, cols, rows, layout)
  {
    hide Words, Scan.Holds;
    assert ColumnHolds(inputs, attrs[0].dtype, cols[0], FieldColumn(rows, 0), layout);
    forall p | 0 <= p < |layout|
      ensures layout[p] <= 1024
    {
      assert layout[p] == cols[0].pages[p].count;
    }
  }
}
