// column_t and its pages of 1024 words (include/column_store.h).
module ColumnPages {
  import opened Bits
  import opened SeqFacts
  import opened ValueWords
  import opened PageBytes
  import opened Tables

  const BUF_SIZE := 1024        // PAGE_SIZE / sizeof(value_t)

  datatype ColumnPage = ColumnPage(buffer: seq<Word>, count: nat) {
    predicate Valid() {
      |buffer| == 1024 && count <= 1024
    }

    function Values(): (r: seq<Word>)
      requires Valid()
      ensures |r| == count && forall s :: 0 <= s < count ==> r[s] == buffer[s]
    {
      buffer[..count]
    }
  }

  predicate AllValid(pages: seq<ColumnPage>) {
    forall p :: 0 <= p < |pages| ==> pages[p].Valid()
  }

  // The words of a column, page by page.
  function Paged(pages: seq<ColumnPage>): (r: seq<seq<Word>>)
    requires AllValid(pages)
    ensures |r| == |pages|
    ensures forall p :: 0 <= p < |pages| ==> r[p] == pages[p].Values()
  {
    seq(|pages|, p requires 0 <= p < |pages| => pages[p].Values())
  }

  function Words(pages: seq<ColumnPage>): seq<Word>
    requires AllValid(pages)
  {
    Flatten(Paged(pages))
  }

  // How many words each page holds.
  function Layout(pages: seq<ColumnPage>): (r: seq<nat>)
    ensures |r| == |pages| && forall p :: 0 <= p < |pages| ==> r[p] == pages[p].count
  {
    seq(|pages|, p requires 0 <= p < |pages| => pages[p].count)
  }

  // The layout after one more append; it depends on nothing but the layout before.
  function Grown(layout: seq<nat>): seq<nat> {
    if layout == [] || layout[|layout| - 1] == 1024 then layout + [1]
    else layout[|layout| - 1 := layout[|layout| - 1] + 1]
  }

  // The layout of n appends to an empty column.
  function Dense(n: nat): seq<nat> {
    if n == 0 then [] else Grown(Dense(n - 1))
  }

  // All pages are full but the last one.
  lemma {:induction false} DenseIs(n: nat)
    ensures |Dense(n)| == (n + 1023) / 1024
    ensures forall p :: 0 <= p < |Dense(n)| ==> Dense(n)[p] == if p < n / 1024 then 1024 else n % 1024
  {
    if n > 0 {
      DenseIs(n - 1);
    }
  }

  // new ColumnPage()
  function EmptyPage(): ColumnPage {
    ColumnPage(seq(1024, i => 0), 0)
  }

  function Appended(pages: seq<ColumnPage>, v: Word): (r: seq<ColumnPage>)
    requires AllValid(pages)
    ensures AllValid(r)
  {
    var room := if pages == [] || pages[|pages| - 1].count == 1024 then pages + [EmptyPage()] else pages;
    var last := room[|room| - 1];
    room[|room| - 1 := ColumnPage(last.buffer[last.count := v], last.count + 1)]
  }

  lemma AppendedKeeps(pages: seq<ColumnPage>, v: Word)
    requires AllValid(pages)
    ensures Words(Appended(pages, v)) == Words(pages) + [v]
    ensures Layout(Appended(pages, v)) == Grown(Layout(pages))
  {
    hide Flatten;
    var after := Appended(pages, v);
    if pages == [] || pages[|pages| - 1].count == 1024 {
      assert after[|pages|].Values() == [v];
      assert Paged(after) == Paged(pages) + [[v]];
      FlattenSnoc(Paged(pages), [v]);
    } else {
      var last := Paged(pages)[|pages| - 1];
      var init := Paged(pages)[..|pages| - 1];
      assert Paged(pages) == init + [last];
      assert after[|pages| - 1].Values() == last + [v];
      assert Paged(after) == init + [last + [v]];
      FlattenSnoc(init, last);
      FlattenSnoc(init, last + [v]);
    }
  }

  lemma NoneBefore(pages: seq<ColumnPage>)
    requires AllValid(pages)
    ensures Words(pages[..0]) == []
  {
  }

  // Where the words of one page lie among the words of the column.
  lemma {:induction false} PageOfWords(pages: seq<ColumnPage>, pg: nat)
    requires AllValid(pages) && pg < |pages|
    ensures |Words(pages[..pg + 1])| == |Words(pages[..pg])| + pages[pg].count <= |Words(pages)|
    ensures forall c :: 0 <= c < pages[pg].count ==> Words(pages)[|Words(pages[..pg])| + c] == pages[pg].buffer[c]
    decreases |pages|
  {
    hide Words;
    var k := |pages| - 1;
    var init := pages[..k];
    WordsSnoc(pages[..pg + 1]);
    assert pages[..pg + 1][..pg] == pages[..pg];
    if pg < k {
      PageOfWords(init, pg);
      assert init[..pg] == pages[..pg] && init[..pg + 1] == pages[..pg + 1];
      WordsSnoc(pages);
    } else {
      assert pages[..pg + 1] == pages;
    }
  }

  lemma WordsSnoc(pages: seq<ColumnPage>)
    requires AllValid(pages) && pages != []
    ensures Words(pages) == Words(pages[..|pages| - 1]) + pages[|pages| - 1].Values()
  {
    assert Paged(pages)[..|pages| - 1] == Paged(pages[..|pages| - 1]);
  }

  class ColumnT {
    var dtype: DataType
    var pages: seq<ColumnPage>
    var isNoNull: bool
    var originalPages: seq<Bytes>

    constructor (dtype: DataType)
      ensures this.dtype == dtype && pages == [] && !isNoNull && originalPages == []
    {
      this.dtype, pages, isNoNull, originalPages := dtype, [], false, [];
    }

    // append(v)
    method Append(v: Word)
      requires AllValid(pages)
      modifies `pages
      ensures pages == Appended(old(pages), v)
      ensures Words(pages) == Words(old(pages)) + [v] && Layout(pages) == Grown(Layout(old(pages)))
    {
      AppendedKeeps(pages, v);
      if pages == [] || pages[|pages| - 1].count == BUF_SIZE {
        pages := pages + [EmptyPage()];
      }
      var last := pages[|pages| - 1];
      pages := pages[|pages| - 1 := ColumnPage(last.buffer[last.count := v], last.count + 1)];
    }

    // create_pages(total_rows)
    method CreatePages(totalRows: nat)
      requires AllValid(pages)
      modifies `pages
      ensures AllValid(pages) && |pages| == Max(|old(pages)|, (totalRows + 1023) / 1024)
      ensures pages[..|old(pages)|] == old(pages)
      ensures forall p :: |old(pages)| <= p < |pages| ==> pages[p].count == 0
    {
      var neededPages := (totalRows + BUF_SIZE - 1) / BUF_SIZE;
      while |pages| < neededPages
        invariant AllValid(pages) && |old(pages)| <= |pages| <= Max(|old(pages)|, neededPages)
        invariant pages[..|old(pages)|] == old(pages)
        invariant forall p :: |old(pages)| <= p < |pages| ==> pages[p].count == 0
      {
        pages := pages + [EmptyPage()];
      }
    }
  }
}
