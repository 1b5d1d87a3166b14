// Filters (include/statement.h, src/statement.cpp): evaluated a record at a time, or on whole columns
// with bitmaps and the thread pool.
module Statements {
  import opened Bits
  import opened Options
  import opened NullBitmap
  import opened PageBytes
  import opened Tables
  import opened Late
  import opened FilterPool
  import opened InnerColumns

  const POOL_THREADS := 12

  type int64 = x: int | -0x8000_0000_0000_0000 <= x < 0x8000_0000_0000_0000

  datatype Literal = IntLiteral(v: int64) | StringLiteral(s: Bytes) | NoLiteral

  datatype LogicalOp = AND | OR | NOT

  datatype Statement =
    | Comparison(column: nat, op: Op, value: Literal)
    | Logical(opType: LogicalOp, children: seq<Statement>)

  // -------- Comparison::eval and LogicalOperation::eval on a record --------

  predicate EvalComparison(like: (Bytes, Bytes) -> bool, op: Op, value: Literal, data: Field) {
    if op == IS_NULL then data == Field.Null
    else if op == IS_NOT_NULL then data != Field.Null
    else if op == LIKE || op == NOT_LIKE then
      data.Str? && value.StringLiteral? && (if op == LIKE then like(data.s, value.s) else !like(data.s, value.s))
    else if data.Int? && value.IntLiteral? then CompareInt(op, data.v, value.v)
    else if data.Str? && value.StringLiteral? then CompareString(like, op, data.s, value.s)
    else false
  }

  predicate EvalRecord(like: (Bytes, Bytes) -> bool, s: Statement, record: seq<Field>)
    decreases s
  {
    match s
    case Comparison(column, op, value) => column < |record| && EvalComparison(like, op, value, record[column])
    case Logical(AND, children) => forall k :: 0 <= k < |children| ==> EvalRecord(like, children[k], record)
    case Logical(OR, children) => exists k :: 0 <= k < |children| && EvalRecord(like, children[k], record)
    case Logical(NOT, children) => |children| == 1 && !EvalRecord(like, children[0], record)
  }

  // -------- what the evaluation on columns can take, and what it makes of it --------

  predicate ComparisonOp(op: Op) {
    op == EQ || op == NEQ || op == LT || op == GT || op == LEQ || op == GEQ
  }

  predicate NullTest(op: Op) {
    op == IS_NULL || op == IS_NOT_NULL
  }

  // No branch is unreachable(), no std::get throws, and children are there to be read.
  predicate Evaluable(s: Statement, types: seq<DataType>)
    decreases s
  {
    match s
    case Comparison(column, op, value) =>
      && column < |types|
      && (types[column] == INT32 || types[column] == VARCHAR)
      && (NullTest(op) || (if types[column] == INT32 then ComparisonOp(op) && value.IntLiteral? else value.StringLiteral?))
    case Logical(NOT, children) => |children| >= 1 && Evaluable(children[0], types)
    case Logical(_, children) => |children| >= 2 && Evaluable(children[0], types) && Evaluable(children[1], types)
  }

  // static_cast<int32_t>(int64_t)
  function Truncated(v: int64): int32 {
    var low := v % 0x1_0000_0000;
    if low < 0x8000_0000 then low else low - 0x1_0000_0000
  }

  // The statement that the evaluation on columns really evaluates: literals compared with INT32
  // columns are cut to 32 bits, and only the first children count.
  function Narrowed(s: Statement, types: seq<DataType>): Statement
    requires Evaluable(s, types)
    decreases s
  {
    match s
    case Comparison(column, op, value) =>
      if types[column] == INT32 && value.IntLiteral? then Comparison(column, op, IntLiteral(Truncated(value.v))) else s
    case Logical(NOT, children) => Logical(NOT, [Narrowed(children[0], types)])
    case Logical(opType, children) => Logical(opType, [Narrowed(children[0], types), Narrowed(children[1], types)])
  }

  predicate InRange(v: int64) {
    -0x8000_0000 <= v < 0x8000_0000
  }

  // Cutting the literal of a comparison changes no outcome: it is in range, or out of range on the
  // side where every int32 compares alike and cut to the bound that compares with all of them so too.
  predicate CutHarmless(op: Op, v: int64) {
    || InRange(v) || !ComparisonOp(op)
    || ((op == LT || op == GEQ) && v < 0 && Truncated(v) == -0x8000_0000)
    || ((op == GT || op == LEQ) && v > 0 && Truncated(v) == 0x7fff_ffff)
  }

  // The comparison agrees with the cut one on all fields exactly then.
  lemma CutAgrees(like: (Bytes, Bytes) -> bool, op: Op, v: int64)
    ensures CutHarmless(op, v) <==>
      forall data :: EvalComparison(like, op, IntLiteral(v), data) == EvalComparison(like, op, IntLiteral(Truncated(v)), data)
  {
    if CutHarmless(op, v) {
      forall data
        ensures EvalComparison(like, op, IntLiteral(v), data) == EvalComparison(like, op, IntLiteral(Truncated(v)), data)
      {
        if data.Int? && !InRange(v) && ComparisonOp(op) {
          CutOrder(v, data.v);
        }
      }
    } else {
      var low, high := Int(-0x8000_0000), Int(0x7fff_ffff);
      var same := Int(Truncated(v));
      CutOrder(v, Truncated(v));
      assert !InRange(v) && same.v == Truncated(v);
      if op == EQ || op == NEQ {
        assert EvalComparison(like, op, IntLiteral(v), same) != EvalComparison(like, op, IntLiteral(Truncated(v)), same);
      } else {
        var data := if v > 0 then high else low;
        assert EvalComparison(like, op, IntLiteral(v), data) != EvalComparison(like, op, IntLiteral(Truncated(v)), data);
      }
    }
  }

  lemma CutOrder(v: int64, x: int32)
    requires !InRange(v)
    ensures if v > 0 then x < v else v < x
  {
  }

  // Harmless literals, binary AND and OR, unary NOT: what makeAnd, makeOr and makeNot build.
  predicate Plain(s: Statement, types: seq<DataType>)
    requires Evaluable(s, types)
    decreases s
  {
    match s
    case Comparison(column, op, value) => types[column] == INT32 && value.IntLiteral? ==> CutHarmless(op, value.v)
    case Logical(NOT, children) => |children| == 1 && Plain(children[0], types)
    case Logical(_, children) => |children| == 2 && Plain(children[0], types) && Plain(children[1], types)
  }

  // A plain statement selects the same records either way.
  lemma {:induction false} NarrowedAgrees(like: (Bytes, Bytes) -> bool, s: Statement, types: seq<DataType>, record: seq<Field>)
    requires Evaluable(s, types) && Plain(s, types)
    ensures EvalRecord(like, Narrowed(s, types), record) <==> EvalRecord(like, s, record)
    decreases s
  {
    hide CutHarmless, Truncated, EvalComparison;
    match s
    case Comparison(_, op, value) =>
      if value.IntLiteral? {
        CutAgrees(like, op, value.v);
      }
    case Logical(NOT, children) =>
      NarrowedAgrees(like, children[0], types, record);
    case Logical(_, children) =>
      NarrowedAgrees(like, children[0], types, record);
      NarrowedAgrees(like, children[1], types, record);
      NarrowedLogical(like, s.opType, children[0], children[1], record);
      NarrowedLogical(like, s.opType, Narrowed(children[0], types), Narrowed(children[1], types), record);
      assert children == [children[0], children[1]];
  }

  // x = 4294967296 selects the rows with x = 0 when evaluated on columns, and no row otherwise.
  lemma WideLiteralDiffers(like: (Bytes, Bytes) -> bool)
    ensures var s := Comparison(0, EQ, IntLiteral(0x1_0000_0000));
      EvalRecord(like, Narrowed(s, [INT32]), [Int(0)]) && !EvalRecord(like, s, [Int(0)])
  {
  }

  // -------- evaluation on columns --------

  datatype InnerColumn = Ints(ints: IntColumn) | Strings(strings: StringColumn)

  function Objects(c: InnerColumn): set<object> {
    match c
    case Ints(x) => {x}
    case Strings(x) => {x}
  }

  function TypeOf(c: InnerColumn): DataType {
    if c.Ints? then INT32 else VARCHAR
  }

  function Types(table: seq<InnerColumn>): (r: seq<DataType>)
    ensures |r| == |table| && forall c :: 0 <= c < |table| ==> r[c] == TypeOf(table[c])
  {
    seq(|table|, c requires 0 <= c < |table| => TypeOf(table[c]))
  }

  function IntValue(v: Option<int32>): Field {
    if v.None? then Field.Null else Int(v.value)
  }

  // The column holds these values.
  ghost predicate ColumnIs(c: InnerColumn, fields: seq<Field>)
    reads Objects(c)
  {
    match c
    case Ints(x) =>
      x.Valid() && |x.data| == |fields| && forall i :: 0 <= i < |fields| ==> fields[i] == IntValue(x.Values()[i])
    case Strings(x) =>
      x.Valid() && x.row == |fields| && forall i :: 0 <= i < |fields| ==> fields[i] == StringField(x.Values()[i])
  }

  ghost predicate TableIs(table: seq<InnerColumn>, values: seq<seq<Field>>, rows: nat)
    reads set c, o | c in table && o in Objects(c) :: o
  {
    |table| == |values| && forall c :: 0 <= c < |table| ==> |values[c]| == rows && ColumnIs(table[c], values[c])
  }

  function Record(values: seq<seq<Field>>, i: nat): (r: seq<Field>)
    requires forall c :: 0 <= c < |values| ==> i < |values[c]|
    ensures |r| == |values| && forall c :: 0 <= c < |values| ==> r[c] == values[c][i]
  {
    seq(|values|, c requires 0 <= c < |values| => values[c][i])
  }

  // The order in which the pool's threads run their ranges: any order, each thread once.
  ghost predicate IsOrder(order: seq<nat>) {
    && (forall k :: 0 <= k < |order| ==> order[k] < POOL_THREADS)
    && (forall t :: 0 <= t < POOL_THREADS ==> t in order)
    && (forall i, j :: 0 <= i < j < |order| ==> order[i] != order[j])
  }

  method PoolOrder() returns (order: seq<nat>)
    ensures IsOrder(order)
  {
    order := seq(12, i => i);
    forall t | 0 <= t < POOL_THREADS
      ensures t in order
    {
      assert order[t] == t;
    }
  }

  ghost predicate RangeIs(output: Bitmap, hits: seq<bool>, t: nat)
    requires t < POOL_THREADS
  {
    forall b :: BeginIdx(|output|, POOL_THREADS, t) <= b < BeginIdx(|output|, POOL_THREADS, t + 1) && b < |output| ==>
      ByteIs(output[b], hits, b)
  }

  ghost predicate RangeClear(output: Bitmap, t: nat)
    requires t < POOL_THREADS
  {
    forall b :: BeginIdx(|output|, POOL_THREADS, t) <= b < BeginIdx(|output|, POOL_THREADS, t + 1) && b < |output| ==> output[b] == 0
  }

  // Writing the range of one thread leaves the ranges of the others alone.
  lemma RangesApart(before: Bitmap, after: Bitmap, hits: seq<bool>, t: nat, u: nat)
    requires t < POOL_THREADS && u < POOL_THREADS && t != u && |before| == |after|
    requires forall b :: 0 <= b < |after| && !(BeginIdx(|after|, POOL_THREADS, t) <= b < BeginIdx(|after|, POOL_THREADS, t + 1)) ==> after[b] == before[b]
    ensures RangeIs(before, hits, u) ==> RangeIs(after, hits, u)
    ensures RangeClear(before, u) ==> RangeClear(after, u)
  {
    hide BeginIdx, ByteIs;
    if t < u {
      BeginMonotone(|after|, POOL_THREADS, t + 1, u);
    } else {
      BeginMonotone(|after|, POOL_THREADS, u + 1, t);
    }
  }

  lemma AllRanges(output: Bitmap, hits: seq<bool>)
    requires |output| == BytesFor(|hits|) && forall t :: 0 <= t < POOL_THREADS ==> RangeIs(output, hits, t)
    ensures ResultIs(output, hits)
  {
    hide BeginIdx, ByteIs, BytesFor;
    forall b | 0 <= b < |output|
      ensures ByteIs(output[b], hits, b)
    {
      RangesTile(|output|, POOL_THREADS, 0);
      var t := Owner(|output|, POOL_THREADS, b, POOL_THREADS);
      assert RangeIs(output, hits, t);
    }
  }

  lemma RangeBounds(n: nat, t: nat)
    requires t < POOL_THREADS
    ensures BeginIdx(n, POOL_THREADS, t) <= BeginIdx(n, POOL_THREADS, t + 1) <= n
  {
    hide BeginIdx;
    RangesTile(n, POOL_THREADS, t);
    BeginMonotone(n, POOL_THREADS, t + 1, POOL_THREADS);
  }

  // less(rhs), greater(rhs), ... of an INT32 column
  method CompareInts(c: IntColumn, op: Op, rhs: int32) returns (result: Bitmap)
    requires c.Valid()
    ensures ResultIs(result, c.Hits(op, rhs))
  {
    hide BeginIdx, ByteIs, RangeIs, RangeClear, ResultIs, IntColumn.Hits;
    ghost var hits := c.Hits(op, rhs);
    var ret := new bv8[|c.bitmap|](_ => 0);
    ghost var clear := ret[..];
    forall t | 0 <= t < POOL_THREADS
      ensures RangeClear(clear, t)
    {
      ClearRange(clear, t);
    }
    var order := PoolOrder();
    for k := 0 to |order|
      invariant forall i :: 0 <= i < k ==> RangeIs(ret[..], hits, order[i])
      invariant forall i :: k <= i < |order| ==> RangeClear(ret[..], order[i])
    {
      var t := order[k];
      ghost var before := ret[..];
      RangeBounds(ret.Length, t);
      ClearBytes(before, t);
      c.Kernel(op, rhs, ret, BeginIdx(ret.Length, POOL_THREADS, t), BeginIdx(ret.Length, POOL_THREADS, t + 1));
      RangeDone(ret[..], hits, t);
      forall i | 0 <= i < |order| && i != k {
        RangesApart(before, ret[..], hits, t, order[i]);
      }
    }
    result := ret[..];
    OrderCovers(result, hits, order);
  }

  lemma ClearRange(output: Bitmap, t: nat)
    requires t < POOL_THREADS && forall b :: 0 <= b < |output| ==> output[b] == 0
    ensures RangeClear(output, t)
  {
  }

  lemma ClearBytes(output: Bitmap, t: nat)
    requires t < POOL_THREADS && RangeClear(output, t)
    ensures forall b :: BeginIdx(|output|, POOL_THREADS, t) <= b < BeginIdx(|output|, POOL_THREADS, t + 1) && b < |output| ==> output[b] == 0
  {
  }

  lemma RangeDone(output: Bitmap, hits: seq<bool>, t: nat)
    requires t < POOL_THREADS
    requires forall b :: BeginIdx(|output|, POOL_THREADS, t) <= b < BeginIdx(|output|, POOL_THREADS, t + 1) && b < |output| ==> ByteIs(output[b], hits, b)
    ensures RangeIs(output, hits, t)
  {
  }

  lemma OrderCovers(output: Bitmap, hits: seq<bool>, order: seq<nat>)
    requires IsOrder(order) && |output| == BytesFor(|hits|)
    requires forall i :: 0 <= i < |order| ==> RangeIs(output, hits, order[i])
    ensures ResultIs(output, hits)
  {
    hide RangeIs, ResultIs;
    forall t | 0 <= t < POOL_THREADS
      ensures RangeIs(output, hits, t)
    {
      assert t in order;
      var i :| 0 <= i < |order| && order[i] == t;
    }
    AllRanges(output, hits);
  }

  // less(rhs), ..., like(rhs), not_like(rhs) of a VARCHAR column
  method CompareStrings(c: StringColumn, like: (Bytes, Bytes) -> bool, op: Op, rhs: Bytes) returns (result: Bitmap)
    requires c.Valid()
    ensures ResultIs(result, c.Hits(like, op, rhs))
  {
    hide BeginIdx, ByteIs, RangeIs, RangeClear, ResultIs, StringColumn.Hits;
    ghost var hits := c.Hits(like, op, rhs);
    var ret := new bv8[|c.bitmap|](_ => 0);
    ghost var clear := ret[..];
    forall t | 0 <= t < POOL_THREADS
      ensures RangeClear(clear, t)
    {
      ClearRange(clear, t);
    }
    var order := PoolOrder();
    for k := 0 to |order|
      invariant forall i :: 0 <= i < k ==> RangeIs(ret[..], hits, order[i])
      invariant forall i :: k <= i < |order| ==> RangeClear(ret[..], order[i])
    {
      var t := order[k];
      ghost var before := ret[..];
      RangeBounds(ret.Length, t);
      ClearBytes(before, t);
      c.Kernel(like, op, rhs, ret, BeginIdx(ret.Length, POOL_THREADS, t), BeginIdx(ret.Length, POOL_THREADS, t + 1));
      RangeDone(ret[..], hits, t);
      forall i | 0 <= i < |order| && i != k {
        RangesApart(before, ret[..], hits, t, order[i]);
      }
    }
    result := ret[..];
    OrderCovers(result, hits, order);
  }

  // -------- bitmap_not, bitmap_and, bitmap_or --------

  // The byte each of them computes; NOT looks at its first operand only.
  function ByteOp(op: LogicalOp, x: bv8, y: bv8): bv8 {
    match op
    case AND => x & y
    case OR => x | y
    case NOT => !x
  }

  predicate BitOp(op: LogicalOp, x: bool, y: bool) {
    match op
    case AND => x && y
    case OR => x || y
    case NOT => !x
  }

  lemma ByteOpBits(op: LogicalOp, x: bv8, y: bv8, k: nat)
    requires k < 8
    ensures HasBit(ByteOp(op, x, y), k) <==> BitOp(op, HasBit(x, k), HasBit(y, k))
  {
    hide HasBit;
    match op
    case AND => AndBits(x, y, k);
    case OR => OrBits(x, y, k);
    case NOT => NotBits(x, k);
  }

  lemma AndBits(x: bv8, y: bv8, k: nat)
    requires k < 8
    ensures HasBit(x & y, k) <==> HasBit(x, k) && HasBit(y, k)
  {
  }

  lemma OrBits(x: bv8, y: bv8, k: nat)
    requires k < 8
    ensures HasBit(x | y, k) <==> HasBit(x, k) || HasBit(y, k)
  {
  }

  lemma NotBits(x: bv8, k: nat)
    requires k < 8
    ensures HasBit(!x, k) <==> !HasBit(x, k)
  {
  }

  function Combined(op: LogicalOp, lhs: Bitmap, rhs: Bitmap): (r: Bitmap)
    requires |lhs| == |rhs|
    ensures |r| == |lhs| && forall b :: 0 <= b < |lhs| ==> r[b] == ByteOp(op, lhs[b], rhs[b])
  {
    seq(|lhs|, b requires 0 <= b < |lhs| => ByteOp(op, lhs[b], rhs[b]))
  }

  lemma CombinedBit(op: LogicalOp, lhs: Bitmap, rhs: Bitmap, i: nat)
    requires |lhs| == |rhs| && i / 8 < |lhs|
    ensures Bit(Combined(op, lhs, rhs), i) <==> BitOp(op, Bit(lhs, i), Bit(rhs, i))
  {
    hide HasBit, ByteOp, BitOp;
    ByteOpBits(op, lhs[i / 8], rhs[i / 8], i % 8);
  }

  ghost predicate RangeEquals(output: Bitmap, target: Bitmap, t: nat)
    requires t < POOL_THREADS && |output| == |target|
  {
    forall b :: BeginIdx(|output|, POOL_THREADS, t) <= b < BeginIdx(|output|, POOL_THREADS, t + 1) && b < |output| ==> output[b] == target[b]
  }

  lemma EqualsApart(before: Bitmap, after: Bitmap, target: Bitmap, t: nat, u: nat)
    requires t < POOL_THREADS && u < POOL_THREADS && t != u && |before| == |after| == |target|
    requires forall b :: 0 <= b < |after| && !(BeginIdx(|after|, POOL_THREADS, t) <= b < BeginIdx(|after|, POOL_THREADS, t + 1)) ==> after[b] == before[b]
    ensures RangeEquals(before, target, u) ==> RangeEquals(after, target, u)
  {
    hide BeginIdx;
    if t < u {
      BeginMonotone(|after|, POOL_THREADS, t + 1, u);
    } else {
      BeginMonotone(|after|, POOL_THREADS, u + 1, t);
    }
  }

  lemma EqualsAll(output: Bitmap, target: Bitmap, order: seq<nat>)
    requires IsOrder(order) && |output| == |target|
    requires forall i :: 0 <= i < |order| ==> RangeEquals(output, target, order[i])
    ensures output == target
  {
    hide BeginIdx;
    forall b | 0 <= b < |output|
      ensures output[b] == target[b]
    {
      RangesTile(|output|, POOL_THREADS, 0);
      var t := Owner(|output|, POOL_THREADS, b, POOL_THREADS);
      assert t in order;
      var i :| 0 <= i < |order| && order[i] == t;
      assert RangeEquals(output, target, order[i]);
    }
  }

  // The task of one thread.
  method CombineRange(op: LogicalOp, lhs: Bitmap, rhs: Bitmap, ret: array<bv8>, begin: nat, end: nat)
    requires |lhs| == |rhs| == ret.Length && begin <= end <= ret.Length
    modifies ret
    ensures forall b :: begin <= b < end ==> ret[b] == Combined(op, lhs, rhs)[b]
    ensures forall b :: 0 <= b < ret.Length && !(begin <= b < end) ==> ret[b] == old(ret[b])
  {
    hide ByteOp;
    for i := begin to end
      invariant forall b :: begin <= b < i ==> ret[b] == Combined(op, lhs, rhs)[b]
      invariant forall b :: 0 <= b < ret.Length && !(begin <= b < i) ==> ret[b] == old(ret[b])
    {
      ret[i] := ByteOp(op, lhs[i], rhs[i]);
    }
  }

  method BitmapOp(op: LogicalOp, lhs: Bitmap, rhs: Bitmap) returns (result: Bitmap)
    requires |lhs| == |rhs|
    ensures result == Combined(op, lhs, rhs)
  {
    hide BeginIdx, RangeEquals, Combined;
    var ret := new bv8[|lhs|](_ => 0);
    ghost var target := Combined(op, lhs, rhs);
    var order := PoolOrder();
    for k := 0 to |order|
      invariant forall i :: 0 <= i < k ==> RangeEquals(ret[..], target, order[i])
    {
      var t := order[k];
      ghost var before := ret[..];
      RangeBounds(ret.Length, t);
      CombineRange(op, lhs, rhs, ret, BeginIdx(ret.Length, POOL_THREADS, t), BeginIdx(ret.Length, POOL_THREADS, t + 1));
      RangeWritten(ret[..], target, t);
      forall i | 0 <= i < k {
        EqualsApart(before, ret[..], target, t, order[i]);
      }
    }
    result := ret[..];
    EqualsAll(result, target, order);
  }

  lemma RangeWritten(output: Bitmap, target: Bitmap, t: nat)
    requires t < POOL_THREADS && |output| == |target|
    requires forall b :: BeginIdx(|output|, POOL_THREADS, t) <= b < BeginIdx(|output|, POOL_THREADS, t + 1) && b < |output| ==> output[b] == target[b]
    ensures RangeEquals(output, target, t)
  {
  }

  // -------- Comparison::eval and LogicalOperation::eval on columns --------

  // Bit i says what the statement says of record i.
  ghost predicate Selects(result: Bitmap, like: (Bytes, Bytes) -> bool, s: Statement, values: seq<seq<Field>>, rows: nat)
    requires forall c :: 0 <= c < |values| ==> |values[c]| == rows
  {
    && |result| == BytesFor(rows)
    && forall i :: 0 <= i < rows ==> (Bit(result, i) <==> EvalRecord(like, s, Record(values, i)))
  }

  // The rows before n whose bit is set.
  ghost function BitRows(result: Bitmap, n: nat): (r: set<nat>)
    requires BytesFor(n) <= |result|
    ensures forall i: nat :: i in r <==> i < n && Bit(result, i)
  {
    set i: nat | i < n && Bit(result, i)
  }

  // The rows that the evaluation on columns selects.
  ghost function Selected(like: (Bytes, Bytes) -> bool, s: Statement, types: seq<DataType>, values: seq<seq<Field>>, rows: nat): (r: set<nat>)
    requires Evaluable(s, types) && forall c :: 0 <= c < |values| ==> |values[c]| == rows
    ensures forall i :: i in r ==> i < rows
  {
    set i: nat | i < rows && EvalRecord(like, Narrowed(s, types), Record(values, i))
  }

  lemma SelectedIs(result: Bitmap, like: (Bytes, Bytes) -> bool, s: Statement, types: seq<DataType>, values: seq<seq<Field>>, rows: nat)
    requires Evaluable(s, types) && forall c :: 0 <= c < |values| ==> |values[c]| == rows
    requires Selects(result, like, Narrowed(s, types), values, rows)
    ensures BitRows(result, rows) == Selected(like, s, types, values, rows)
  {
    hide Bit, EvalRecord;
  }

  method EvalInts(c: IntColumn, op: Op, value: Literal, ghost like: (Bytes, Bytes) -> bool, ghost fields: seq<Field>) returns (result: Bitmap)
    requires NullTest(op) || (ComparisonOp(op) && value.IntLiteral?)
    requires ColumnIs(Ints(c), fields)
    ensures |result| == BytesFor(|fields|)
    ensures forall i :: 0 <= i < |fields| ==>
      (Bit(result, i) <==> EvalComparison(like, op, if value.IntLiteral? then IntLiteral(Truncated(value.v)) else value, fields[i]))
  {
    hide Bit, Truncated, ResultIs, Combined;
    if op == IS_NULL {
      result := BitmapOp(NOT, c.bitmap, c.bitmap);
      forall i | 0 <= i < |fields| {
        CombinedBit(NOT, c.bitmap, c.bitmap, i);
      }
    } else if op == IS_NOT_NULL {
      result := c.bitmap;
    } else {
      var compValue := Truncated(value.v);
      result := CompareInts(c, op, compValue);
      forall i | 0 <= i < |fields| {
        ResultBit(result, c.Hits(op, compValue), i);
      }
      ResultLength(result, c.Hits(op, compValue));
    }
  }

  lemma ResultLength(result: Bitmap, hits: seq<bool>)
    requires ResultIs(result, hits)
    ensures |result| == BytesFor(|hits|)
  {
  }

  method EvalStrings(c: StringColumn, op: Op, value: Literal, like: (Bytes, Bytes) -> bool, ghost fields: seq<Field>) returns (result: Bitmap)
    requires NullTest(op) || value.StringLiteral?
    requires ColumnIs(Strings(c), fields)
    ensures |result| == BytesFor(|fields|)
    ensures forall i :: 0 <= i < |fields| ==> (Bit(result, i) <==> EvalComparison(like, op, value, fields[i]))
  {
    hide Bit, ResultIs, Combined, Less;
    if op == IS_NULL {
      result := BitmapOp(NOT, c.bitmap, c.bitmap);
      forall i | 0 <= i < |fields| {
        CombinedBit(NOT, c.bitmap, c.bitmap, i);
      }
    } else if op == IS_NOT_NULL {
      result := c.bitmap;
    } else {
      result := CompareStrings(c, like, op, value.s);
      forall i | 0 <= i < |fields| {
        ResultBit(result, c.Hits(like, op, value.s), i);
      }
      ResultLength(result, c.Hits(like, op, value.s));
    }
  }

  lemma NarrowedLogical(like: (Bytes, Bytes) -> bool, opType: LogicalOp, l: Statement, r: Statement, record: seq<Field>)
    ensures EvalRecord(like, Logical(if opType == NOT then NOT else opType, if opType == NOT then [l] else [l, r]), record)
       <==> BitOp(opType, EvalRecord(like, l, record), EvalRecord(like, r, record))
  {
    var s := Logical(if opType == NOT then NOT else opType, if opType == NOT then [l] else [l, r]);
    assert s.children[0] == l;
    if opType != NOT {
      assert s.children[1] == r;
    }
  }

  // The statement, evaluated on columns, selects the rows that its narrowed form selects one by one.
  method Eval(s: Statement, table: seq<InnerColumn>, like: (Bytes, Bytes) -> bool, ghost values: seq<seq<Field>>, ghost rows: nat)
      returns (result: Bitmap)
    requires Evaluable(s, Types(table)) && TableIs(table, values, rows)
    ensures Selects(result, like, Narrowed(s, Types(table)), values, rows)
    ensures BitRows(result, rows) == Selected(like, s, Types(table), values, rows)
    decreases s
  {
    hide Bit, EvalComparison, Combined, Selected, BitRows;
    match s {
      case Comparison(column, op, value) =>
        match table[column] {
          case Ints(c) => result := EvalInts(c, op, value, like, values[column]);
          case Strings(c) => result := EvalStrings(c, op, value, like, values[column]);
        }
      case Logical(opType, children) =>
        result := Eval(children[0], table, like, values, rows);
        ghost var left, l := result, Narrowed(children[0], Types(table));
        if opType == NOT {
          result := BitmapOp(NOT, result, result);
          forall i | 0 <= i < rows
            ensures Bit(result, i) <==> EvalRecord(like, Narrowed(s, Types(table)), Record(values, i))
          {
            CombinedBit(NOT, left, left, i);
            NarrowedLogical(like, NOT, l, l, Record(values, i));
          }
        } else {
          var second := Eval(children[1], table, like, values, rows);
          result := BitmapOp(opType, result, second);
          forall i | 0 <= i < rows
            ensures Bit(result, i) <==> EvalRecord(like, Narrowed(s, Types(table)), Record(values, i))
          {
            CombinedBit(opType, left, second, i);
            NarrowedLogical(like, opType, l, Narrowed(children[1], Types(table)), Record(values, i));
          }
        }
    }
    SelectedIs(result, like, s, Types(table), values, rows);
  }

  // -------- what statements select --------

  ghost function AllRows(rows: nat): (r: set<nat>)
    ensures forall i: nat :: i in r <==> i < rows
  {
    if rows == 0 then {} else AllRows(rows - 1) + {rows - 1}
  }

  // AND selects what both of its operands select, OR what one of them does, NOT what its operand does not.
  lemma LogicalSelects(like: (Bytes, Bytes) -> bool, children: seq<Statement>, types: seq<DataType>, values: seq<seq<Field>>, rows: nat)
    requires |children| > 0 && Evaluable(children[0], types) && forall c :: 0 <= c < |values| ==> |values[c]| == rows
    ensures var first := Selected(like, children[0], types, values, rows);
      && Selected(like, Logical(NOT, children), types, values, rows) == AllRows(rows) - first
      && (|children| > 1 && Evaluable(children[1], types) ==>
            var second := Selected(like, children[1], types, values, rows);
            && Selected(like, Logical(AND, children), types, values, rows) == first * second
            && Selected(like, Logical(OR, children), types, values, rows) == first + second)
  {
    hide Narrowed;
    forall i: nat | i < rows
      ensures i in Selected(like, Logical(NOT, children), types, values, rows) <==> i !in Selected(like, children[0], types, values, rows)
    {
      LogicalRecord(like, children, types, Record(values, i));
    }
    if |children| > 1 && Evaluable(children[1], types) {
      forall i: nat | i < rows
        ensures i in Selected(like, Logical(AND, children), types, values, rows) <==>
          i in Selected(like, children[0], types, values, rows) && i in Selected(like, children[1], types, values, rows)
        ensures i in Selected(like, Logical(OR, children), types, values, rows) <==>
          i in Selected(like, children[0], types, values, rows) || i in Selected(like, children[1], types, values, rows)
      {
        LogicalRecord(like, children, types, Record(values, i));
      }
    }
  }

  lemma LogicalRecord(like: (Bytes, Bytes) -> bool, children: seq<Statement>, types: seq<DataType>, record: seq<Field>)
    requires |children| > 0 && Evaluable(children[0], types)
    ensures EvalRecord(like, Narrowed(Logical(NOT, children), types), record) <==> !EvalRecord(like, Narrowed(children[0], types), record)
    ensures |children| > 1 && Evaluable(children[1], types) ==>
      && (EvalRecord(like, Narrowed(Logical(AND, children), types), record) <==>
            EvalRecord(like, Narrowed(children[0], types), record) && EvalRecord(like, Narrowed(children[1], types), record))
      && (EvalRecord(like, Narrowed(Logical(OR, children), types), record) <==>
            EvalRecord(like, Narrowed(children[0], types), record) || EvalRecord(like, Narrowed(children[1], types), record))
  {
    var l := Narrowed(children[0], types);
    NarrowedLogical(like, NOT, l, l, record);
    if |children| > 1 && Evaluable(children[1], types) {
      var r := Narrowed(children[1], types);
      NarrowedLogical(like, AND, l, r, record);
      NarrowedLogical(like, OR, l, r, record);
    }
  }

  // The null tests, whatever literal comes with them.
  lemma NullTestSelects(like: (Bytes, Bytes) -> bool, column: nat, value: Literal, types: seq<DataType>, values: seq<seq<Field>>, rows: nat)
    requires column < |types| == |values| && (types[column] == INT32 || types[column] == VARCHAR)
    requires forall c :: 0 <= c < |values| ==> |values[c]| == rows
    ensures Selected(like, Comparison(column, IS_NULL, value), types, values, rows)
         == set i: nat | i < rows && values[column][i] == Field.Null
    ensures Selected(like, Comparison(column, IS_NOT_NULL, value), types, values, rows)
         == set i: nat | i < rows && values[column][i] != Field.Null
  {
  }

  // Comparing an INT32 column with a literal is comparing it with the int32 that has the same last 32
  // bits.
  lemma IntsSelect(like: (Bytes, Bytes) -> bool, column: nat, v: int64, u: int32, types: seq<DataType>, values: seq<seq<Field>>, rows: nat)
    requires column < |types| == |values| && types[column] == INT32 && forall c :: 0 <= c < |values| ==> |values[c]| == rows
    requires (u - v) % 0x1_0000_0000 == 0
    ensures var lit, col := IntLiteral(v), values[column];
      && Selected(like, Comparison(column, EQ, lit), types, values, rows) == (set i: nat | i < rows && col[i] == Int(u))
      && Selected(like, Comparison(column, NEQ, lit), types, values, rows) == (set i: nat | i < rows && col[i].Int? && col[i] != Int(u))
      && Selected(like, Comparison(column, LT, lit), types, values, rows) == (set i: nat | i < rows && col[i].Int? && col[i].v < u)
      && Selected(like, Comparison(column, GT, lit), types, values, rows) == (set i: nat | i < rows && col[i].Int? && col[i].v > u)
      && Selected(like, Comparison(column, LEQ, lit), types, values, rows) == (set i: nat | i < rows && col[i].Int? && col[i].v <= u)
      && Selected(like, Comparison(column, GEQ, lit), types, values, rows) == (set i: nat | i < rows && col[i].Int? && col[i].v >= u)
  {
    hide Truncated;
    TruncatedIs(v, u);
  }

  lemma TruncatedIs(v: int64, u: int32)
    requires (u - v) % 0x1_0000_0000 == 0
    ensures Truncated(v) == u
  {
  }

  // a comes before b: it is a proper prefix, or smaller where they first differ.
  ghost predicate Precedes(a: Bytes, b: Bytes) {
    exists k: nat :: DiffersAt(a, b, k)
  }

  predicate DiffersAt(a: Bytes, b: Bytes, k: nat) {
    && k <= |a| && k < |b| && a[..k] == b[..k]
    && (k == |a| || a[k] < b[k])
  }

  // Exactly one of a before b, a equal to b, b before a.
  lemma {:induction false} PrecedesTotal(a: Bytes, b: Bytes)
    ensures Precedes(a, b) || a == b || Precedes(b, a)
    ensures !(Precedes(a, b) && Precedes(b, a)) && !Precedes(a, a)
  {
    if Precedes(a, b) && Precedes(b, a) {
      var k: nat :| DiffersAt(a, b, k);
      var l: nat :| DiffersAt(b, a, l);
      PrecedesOnce(a, b, k, l);
    }
    var n := FirstDifference(a, b);
    if n < |a| && n < |b| {
      assert DiffersAt(a, b, n) || DiffersAt(b, a, n);
    } else if n < |b| {
      assert DiffersAt(a, b, n);
    } else if n < |a| {
      assert DiffersAt(b, a, n);
    }
  }

  lemma PrecedesOnce(a: Bytes, b: Bytes, k: nat, l: nat)
    ensures !(DiffersAt(a, b, k) && DiffersAt(b, a, l))
  {
    if DiffersAt(a, b, k) && DiffersAt(b, a, l) {
      if k < l {
        PrefixAt(b, a, l, k);
      } else if l < k {
        PrefixAt(a, b, k, l);
      }
    }
  }

  lemma PrefixAt(a: Bytes, b: Bytes, k: nat, i: nat)
    requires DiffersAt(a, b, k) && i < k
    ensures i < |a| && i < |b| && a[i] == b[i]
  {
    assert a[..k][i] == a[i] && b[..k][i] == b[i];
  }

  function FirstDifference(a: Bytes, b: Bytes): (n: nat)
    ensures n <= |a| && n <= |b| && a[..n] == b[..n] && (n < |a| && n < |b| ==> a[n] != b[n])
  {
    if a == [] || b == [] || a[0] != b[0] then 0
    else
      var n := FirstDifference(a[1..], b[1..]);
      assert a[..n + 1] == [a[0]] + a[1..][..n] && b[..n + 1] == [b[0]] + b[1..][..n];
      n + 1
  }

  lemma {:induction false} LessPrecedes(a: Bytes, b: Bytes)
    ensures Less(a, b) <==> Precedes(a, b)
    decreases |a|
  {
    if a == [] || b == [] {
      if b != [] {
        assert DiffersAt(a, b, 0);
      }
    } else if a[0] == b[0] {
      LessPrecedes(a[1..], b[1..]);
      PrecedesTail(a, b);
    } else {
      assert a[0] < b[0] ==> DiffersAt(a, b, 0);
      forall k: nat | DiffersAt(a, b, k)
        ensures a[0] < b[0]
      {
        FirstByte(a, b, k);
      }
    }
  }

  lemma FirstByte(a: Bytes, b: Bytes, k: nat)
    requires a != [] && DiffersAt(a, b, k)
    ensures a[0] == b[0] || a[0] < b[0]
  {
    assert k > 0 ==> a[..k][0] == a[0] && b[..k][0] == b[0];
  }

  lemma PrecedesTail(a: Bytes, b: Bytes)
    requires a != [] && b != [] && a[0] == b[0]
    ensures Precedes(a, b) <==> Precedes(a[1..], b[1..])
  {
    if Precedes(a, b) {
      var k: nat :| DiffersAt(a, b, k);
      assert k > 0;
      assert a[1..][..k - 1] == a[..k][1..] && b[1..][..k - 1] == b[..k][1..];
      assert DiffersAt(a[1..], b[1..], k - 1);
    }
    if Precedes(a[1..], b[1..]) {
      var k: nat :| DiffersAt(a[1..], b[1..], k);
      assert a[..k + 1] == [a[0]] + a[1..][..k] && b[..k + 1] == [b[0]] + b[1..][..k];
      assert DiffersAt(a, b, k + 1);
    }
  }

  lemma StringsSelect(like: (Bytes, Bytes) -> bool, column: nat, y: Bytes, types: seq<DataType>, values: seq<seq<Field>>, rows: nat)
    requires column < |types| == |values| && types[column] == VARCHAR && forall c :: 0 <= c < |values| ==> |values[c]| == rows
    ensures var lit, col := StringLiteral(y), values[column];
      && Selected(like, Comparison(column, EQ, lit), types, values, rows) == (set i: nat | i < rows && col[i] == Str(y))
      && Selected(like, Comparison(column, NEQ, lit), types, values, rows) == (set i: nat | i < rows && col[i].Str? && col[i] != Str(y))
      && Selected(like, Comparison(column, LT, lit), types, values, rows) == (set i: nat | i < rows && col[i].Str? && Precedes(col[i].s, y))
      && Selected(like, Comparison(column, GT, lit), types, values, rows) == (set i: nat | i < rows && col[i].Str? && Precedes(y, col[i].s))
      && Selected(like, Comparison(column, LEQ, lit), types, values, rows) == (set i: nat | i < rows && col[i].Str? && !Precedes(y, col[i].s))
      && Selected(like, Comparison(column, GEQ, lit), types, values, rows) == (set i: nat | i < rows && col[i].Str? && !Precedes(col[i].s, y))
      && Selected(like, Comparison(column, LIKE, lit), types, values, rows) == (set i: nat | i < rows && col[i].Str? && like(col[i].s, y))
      && Selected(like, Comparison(column, NOT_LIKE, lit), types, values, rows) == (set i: nat | i < rows && col[i].Str? && !like(col[i].s, y))
  {
    hide Less, Precedes;
    forall i: nat | i < rows && values[column][i].Str?
      ensures Less(values[column][i].s, y) <==> Precedes(values[column][i].s, y)
      ensures Less(y, values[column][i].s) <==> Precedes(y, values[column][i].s)
    {
      LessPrecedes(values[column][i].s, y);
      LessPrecedes(y, values[column][i].s);
    }
  }
}
