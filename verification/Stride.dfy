/** The strided copy, run on two cached files. */
module Stride {
  import opened Arithmetic
  import opened Sets
  import opened OsFile
  import opened CacheWindow
  import opened CacheReach
  import opened CachedFile

  // ----- The order of the bytes

  /** The block of columns that a byte of the input lies in. */
  function Column(i: nat, block: nat, stride: nat): nat
    requires 1 <= block <= stride
  {
    (i % stride) / block
  }

  /** By block of columns, then by position. */
  predicate Before(i: nat, j: nat, block: nat, stride: nat)
    requires 1 <= block <= stride
  {
    Column(i, block, stride) < Column(j, block, stride)
        || (Column(i, block, stride) == Column(j, block, stride) && i < j)
  }

  ghost predicate Increasing(order: seq<nat>, block: nat, stride: nat)
    requires 1 <= block <= stride
  {
    forall a: nat, b: nat :: a < b < |order| ==> Before(order[a], order[b], block, stride)
  }

  /** The bytes of `input` at the positions in `order`. */
  function Gather(input: seq<Byte>, order: seq<nat>): (r: seq<Byte>)
    requires forall k: nat :: k < |order| ==> order[k] < |input|
    ensures |r| == |order| && forall k: nat :: k < |order| ==> r[k] == input[order[k]]
  {
    seq(|order|, (k: nat) requires k < |order| => input[order[k]])
  }

  // ----- Counting

  ghost predicate Distinct(order: seq<nat>) {
    forall a: nat, b: nat :: a < b < |order| ==> order[a] != order[b]
  }

  function Elements(order: seq<nat>): (r: set<nat>)
    ensures forall i: nat :: i in r <==> i in order
  {
    set i | i in order
  }

  lemma {:induction false} DistinctSize(order: seq<nat>)
    requires Distinct(order)
    ensures |Elements(order)| == |order|
  {
    if order == [] {
      assert Elements(order) == {};
    } else {
      var n := |order| - 1;
      var p := order[..n];
      DistinctSize(p);
      assert order == p + [order[n]];
      assert Elements(order) == Elements(p) + {order[n]};
      assert order[n] !in p;
    }
  }

  lemma IncreasingDistinct(order: seq<nat>, block: nat, stride: nat)
    requires 1 <= block <= stride && Increasing(order, block, stride)
    ensures Distinct(order)
  {
    forall a: nat, b: nat | a < b < |order| ensures order[a] != order[b] {
      assert Before(order[a], order[b], block, stride);
    }
  }

  /** Distinct positions in a file of `n` bytes: there are at most `n`, and `n` of them are all of them. */
  lemma CoversIff(order: seq<nat>, n: nat)
    requires Distinct(order) && forall k: nat :: k < |order| ==> order[k] < n
    ensures |order| <= n
    ensures |order| == n <==> forall i: nat :: i < n ==> i in order
  {
    DistinctSize(order);
    var s := Elements(order);
    SubsetSize(s, Range(0, n));
    if |order| == n {
      SubsetFull(s, Range(0, n));
    }
    if forall i: nat :: i < n ==> i in order {
      SubsetSize(Range(0, n), s);
    }
  }

  // ----- Rows and columns

  /** Position and remainder along one row. */
  lemma {:induction false} AlongRow(i: nat, pos: nat, c: nat, stride: nat)
    requires c < stride && pos % stride == c && pos <= i < pos + stride
    ensures i % stride == if c + (i - pos) < stride then c + (i - pos) else c + (i - pos) - stride
  {
    var q := pos / stride;
    var r := c + (i - pos);
    if r < stride {
      DivUnique(i, stride, q, r);
    } else {
      More(q, stride);
      DivUnique(i, stride, q + 1, r - stride);
    }
  }

  /** The bytes copied when the next block is read at `pos` in the columns from `c` to `c + width`. */
  predicate Copied(i: nat, c: nat, width: nat, pos: nat, stride: nat)
    requires stride > 0
  {
    i % stride < c || (i % stride < c + width && i < pos)
  }

  /** Reading one block at `pos` completes the row. */
  lemma RowDone(i: nat, n: nat, c: nat, width: nat, pos: nat, stride: nat)
    requires c < stride && c + width <= stride && pos % stride == c && i < n
    ensures Copied(i, c, width, pos, stride) || pos <= i < pos + width <==> Copied(i, c, width, pos + stride, stride)
  {
    if pos <= i < pos + stride {
      AlongRow(i, pos, c, stride);
    }
  }

  /** Moving to the next block of columns changes nothing. */
  lemma ColumnsDone(i: nat, n: nat, c: nat, width: nat, pos: nat, width': nat, stride: nat)
    requires c + width <= stride && stride > 0 && i < n <= pos
    ensures Copied(i, c, width, pos, stride) <==> Copied(i, c + width, width', c + width, stride)
  {
    if i < stride {
      DivUnique(i, stride, 0, i);
    }
  }

  lemma ColumnInside(i: nat, c: nat, block: nat, stride: nat)
    requires 1 <= block <= stride && c % block == 0 && c <= i % stride < c + block
    ensures Column(i, block, stride) == c / block
  {
    DivUnique(i % stride, block, c / block, i % stride - c);
  }

  lemma ColumnLess(i: nat, c: nat, block: nat, stride: nat)
    requires 1 <= block <= stride && c % block == 0 && i % stride < c
    ensures Column(i, block, stride) < c / block
  {
    var d := Column(i, block, stride);
    assert d * block <= i % stride;
    if d >= c / block {
      Scale(c / block, d, block);
    }
  }

  // ----- The state of the loop

  /** Columns from `c`, `width` of them, are being copied; the next block is at `pos`. */
  ghost predicate Positioned(n: nat, block: nat, stride: nat, c: nat, width: nat, pos: nat) {
    && 1 <= block <= stride && c <= stride && width == Min(block, stride - c)
    && (c < stride ==> c % block == 0 && pos % stride == c && (pos < n || pos == c))
  }

  /** `order` holds the positions copied so far and no others, in increasing order. */
  ghost predicate Holds(order: seq<nat>, n: nat, block: nat, stride: nat, c: nat, width: nat, pos: nat)
    requires 1 <= block <= stride
  {
    && Increasing(order, block, stride)
    && (forall k: nat :: k < |order| ==> order[k] < n && Copied(order[k], c, width, pos, stride))
    && forall i: nat :: i < n && Copied(i, c, width, pos, stride) ==> i in order
  }

  /** When there is no block left at `pos`, everything has been copied. */
  lemma MoreToDo(order: seq<nat>, n: nat, block: nat, stride: nat, c: nat, width: nat, pos: nat)
    requires Positioned(n, block, stride, c, width, pos) && Holds(order, n, block, stride, c, width, pos)
    ensures |order| < n ==> c < stride && pos < n && width >= 1
    ensures |order| <= n
  {
    IncreasingDistinct(order, block, stride);
    CoversIff(order, n);
    if c == stride || pos >= n {
      forall i: nat | i < n ensures i in order {
        if c < stride {
          DivUnique(i, stride, 0, i);
        }
        assert Copied(i, c, width, pos, stride);
      }
    }
  }

  function Block(pos: nat, k: nat): (r: seq<nat>)
    ensures |r| == k && forall j: nat :: j < k ==> r[j] == pos + j
  {
    seq(k, (j: nat) => pos + j)
  }

  lemma Extends(x: nat, y: nat, block: nat, stride: nat, c: nat, width: nat, pos: nat)
    requires 1 <= block <= stride && c < stride && width == Min(block, stride - c) && c % block == 0
             && pos % stride == c
    requires Copied(x, c, width, pos, stride) && pos <= y < pos + width
    ensures Before(x, y, block, stride)
  {
    AlongRow(y, pos, c, stride);
    ColumnInside(y, c, block, stride);
    if x % stride < c {
      ColumnLess(x, c, block, stride);
    } else {
      ColumnInside(x, c, block, stride);
    }
  }

  lemma WithinBlock(x: nat, y: nat, block: nat, stride: nat, c: nat, width: nat, pos: nat)
    requires 1 <= block <= stride && c < stride && width == Min(block, stride - c) && c % block == 0
             && pos % stride == c
    requires pos <= x < y < pos + width
    ensures Before(x, y, block, stride)
  {
    AlongRow(x, pos, c, stride);
    AlongRow(y, pos, c, stride);
    ColumnInside(x, c, block, stride);
    ColumnInside(y, c, block, stride);
  }

  /** One block further. */
  lemma OneBlock(order: seq<nat>, n: nat, block: nat, stride: nat, c: nat, width: nat, pos: nat)
    requires Positioned(n, block, stride, c, width, pos) && c < stride && pos < n
    requires Holds(order, n, block, stride, c, width, pos)
    ensures Holds(order + Block(pos, Min(width, n - pos)), n, block, stride, c, width, pos + stride)
  {
    hide Copied, Before, Column;
    var more := order + Block(pos, Min(width, n - pos));
    forall a: nat, b: nat | a < b < |more| ensures Before(more[a], more[b], block, stride) {
      if b >= |order| {
        if a >= |order| {
          WithinBlock(more[a], more[b], block, stride, c, width, pos);
        } else {
          Extends(more[a], more[b], block, stride, c, width, pos);
        }
      } else {
        assert more[a] == order[a] && more[b] == order[b];
      }
    }
    forall k: nat | k < |more| ensures more[k] < n && Copied(more[k], c, width, pos + stride, stride) {
      assert k < |order| ==> more[k] == order[k];
      RowDone(more[k], n, c, width, pos, stride);
    }
    forall i: nat | i < n && Copied(i, c, width, pos + stride, stride) ensures i in more {
      RowDone(i, n, c, width, pos, stride);
      if pos <= i < pos + width {
        assert more[|order| + (i - pos)] == i;
      }
    }
  }

  /** The next block of columns. */
  lemma NextColumns(order: seq<nat>, n: nat, block: nat, stride: nat, c: nat, width: nat, pos: nat)
    requires 1 <= block <= stride && c < stride && c % block == 0 && width == Min(block, stride - c) && n <= pos
    requires Holds(order, n, block, stride, c, width, pos)
    ensures var c' := c + width;
            var width' := if c' + width > stride then stride - c' else width;
            Positioned(n, block, stride, c', width', c') && Holds(order, n, block, stride, c', width', c')
  {
    hide Copied, Before, Column;
    var c' := c + width;
    var width' := if c' + width > stride then stride - c' else width;
    forall i: nat | i < n ensures Copied(i, c, width, pos, stride) <==> Copied(i, c', width', c', stride) {
      ColumnsDone(i, n, c, width, pos, width', stride);
    }
    if c' < stride {
      More(c / block, block);
      DivUnique(c', block, c / block + 1, 0);
      DivUnique(c', stride, 0, c');
    }
  }

  lemma NextRow(n: nat, block: nat, stride: nat, c: nat, width: nat, pos: nat)
    requires Positioned(n, block, stride, c, width, pos) && c < stride
    ensures (pos + stride) % stride == c && (pos + stride < n ==> Positioned(n, block, stride, c, width, pos + stride))
  {
    More(pos / stride, stride);
    DivUnique(pos + stride, stride, pos / stride + 1, c);
  }

  // ----- The copy

  lemma GatherBlock(input: seq<Byte>, order: seq<nat>, pos: nat, width: nat)
    requires (forall k: nat :: k < |order| ==> order[k] < |input|) && pos < |input|
    ensures var k := Min(width, |input| - pos);
            && |PRead(input, width, pos)| == k
            && (forall j: nat :: j < |order + Block(pos, k)| ==> (order + Block(pos, k))[j] < |input|)
            && Gather(input, order + Block(pos, k)) == Gather(input, order) + PRead(input, width, pos)
  {
  }

  /** Where the next block is and how wide, after the one at `pos`. */
  function Turn(pos: nat, width: nat, n: nat, stride: nat): (nat, nat)
    requires stride > 0 && width <= stride
  {
    if pos + stride < n then (pos + stride, width)
    else
      var next := (pos + stride) % stride + width;
      (next, if next + width > stride && next <= stride then stride - next else width)
  }

  method NextBlock(pos: nat, width: nat, n: nat, stride: nat) returns (pos': nat, width': nat)
    requires stride > 0 && width <= stride && (pos + stride >= n ==> (pos + stride) % stride + width <= stride)
    ensures (pos', width') == Turn(pos, width, n, stride) && width' <= stride
  {
    pos', width' := pos + stride, width;
    if pos' >= n {
      pos' := pos' % stride + width;
      if pos' + width > stride {
        width' := stride - pos';
      }
    }
  }

  lemma Advanced(order: seq<nat>, n: nat, block: nat, stride: nat, c: nat, width: nat, pos: nat) returns (c': nat)
    requires Positioned(n, block, stride, c, width, pos) && c < stride && pos < n
    requires Holds(order, n, block, stride, c, width, pos)
    ensures var (pos', width') := Turn(pos, width, n, stride);
            && Positioned(n, block, stride, c', width', pos')
            && Holds(order + Block(pos, Min(width, n - pos)), n, block, stride, c', width', pos')
    ensures pos + stride >= n ==> (pos + stride) % stride + width <= stride
  {
    hide Holds;
    OneBlock(order, n, block, stride, c, width, pos);
    NextRow(n, block, stride, c, width, pos);
    c' := c;
    if pos + stride >= n {
      NextColumns(order + Block(pos, Min(width, n - pos)), n, block, stride, c, width, pos + stride);
      c' := c + width;
    }
  }

  /** The input file is whole and its head is at `pos`. */
  ghost predicate InputAt(f: CachedFile, input: seq<Byte>, pos: nat)
    reads f, f.cache
  {
    f.Ok() && Settled(f.W()) && Content(f.W()) == input && f.head == pos
  }

  /** `done` has been written to the start of the output file. */
  ghost predicate OutputHas(f: CachedFile, was: seq<Byte>, done: seq<Byte>)
    reads f, f.cache
  {
    f.Ok() && Growing(f.W()) && Content(f.W()) == PWrite(was, done, 0) && f.head == |done|
  }

  method ReadBlock(f: CachedFile, ghost input: seq<Byte>, ghost pos: nat, width: nat) returns (data: seq<Byte>)
    requires InputAt(f, input, pos)
    modifies f, f.cache
    ensures InputAt(f, input, pos + |data|) && data == PRead(input, width, pos)
  {
    hide Content, PRead, Agrees, RightRead, Settled;
    SettledRight(f.W(), width);
    data := f.Read(width);
  }

  method SeekTo(f: CachedFile, ghost input: seq<Byte>, ghost from: nat, pos: nat)
    requires InputAt(f, input, from)
    modifies f, f.cache
    ensures InputAt(f, input, pos)
  {
    hide Content, Sought, Agrees;
    SoughtKeeps(f.W(), pos);
    SoughtLoaded(f.W(), pos);
    var r := f.Seek(pos);
  }

  method Append(f: CachedFile, ghost was: seq<Byte>, ghost done: seq<Byte>, data: seq<Byte>)
    requires OutputHas(f, was, done)
    modifies f, f.cache
    ensures OutputHas(f, was, done + data)
  {
    hide Content, PWrite, Agrees, CanWrite;
    WriteWrite(was, done, data, 0);
    CanWriteWhen(f.W(), |data|);
    var r := f.Write(data);
  }

  /** `stride_cat`: each byte of the input is written once, by block of columns and then by position. */
  method StrideCat(input: seq<Byte>, was: seq<Byte>, blockSize: nat, stride: nat)
    returns (left: seq<Byte>, inputLeft: seq<Byte>, ghost order: seq<nat>)
    requires 1 <= blockSize <= stride
    ensures Increasing(order, blockSize, stride) && |order| == |input|
    ensures forall i: nat :: i in order <==> i < |input|
    ensures forall k: nat :: k < |order| ==> order[k] < |input|
    ensures left == PWrite(was, Gather(input, order), 0) && inputLeft == input
  {
    hide Increasing, Holds, Positioned, PWrite, Gather, InputAt, OutputHas, Block, Turn, Content, Settled, Growing,
         Agrees;
    var inf := new CachedFile(input);
    Opened(inf, input);
    SeekTo(inf, input, 0, 0);
    var outf := new CachedFile(was);
    OpenedOut(outf, was);
    var pos: nat, written: nat, width: nat := 0, 0, blockSize;
    ghost var c: nat := 0;
    order := [];
    Starts(|input|, blockSize, stride);
    NothingYet(was, input);
    while written < |input|
      invariant fresh(inf) && fresh(inf.cache) && fresh(outf) && fresh(outf.cache) && inf != outf
                && inf.cache != outf.cache
      invariant Positioned(|input|, blockSize, stride, c, width, pos) && width <= stride
      invariant Holds(order, |input|, blockSize, stride, c, width, pos)
      invariant forall k: nat :: k < |order| ==> order[k] < |input|
      invariant InputAt(inf, input, pos) && OutputHas(outf, was, Gather(input, order))
      invariant written == |order|
      decreases |input| - written
    {
      MoreToDo(order, |input|, blockSize, stride, c, width, pos);
      var data := ReadBlock(inf, input, pos, width);
      if |data| == 0 {
        break;
      }
      GatherBlock(input, order, pos, width);
      Append(outf, was, Gather(input, order), data);
      written := written + |data|;
      c := Advanced(order, |input|, blockSize, stride, c, width, pos);
      order := order + Block(pos, |data|);
      ghost var at := pos + |data|;
      pos, width := NextBlock(pos, width, |input|, stride);
      SeekTo(inf, input, at, pos);
    }
    Finished(order, |input|, blockSize, stride, c, width, pos);
    left, inputLeft := CloseBoth(inf, outf, input, pos, was, Gather(input, order));
  }

  method CloseBoth(inf: CachedFile, outf: CachedFile, ghost input: seq<Byte>, ghost pos: nat, ghost was: seq<Byte>,
                   ghost done: seq<Byte>)
    returns (left: seq<Byte>, inputLeft: seq<Byte>)
    requires inf != outf && inf.cache != outf.cache && InputAt(inf, input, pos) && OutputHas(outf, was, done)
    modifies inf, outf
    ensures left == PWrite(was, done, 0) && inputLeft == input
  {
    inf.Close();
    outf.Close();
    inputLeft, left := inf.disk, outf.disk;
  }

  lemma Opened(f: CachedFile, input: seq<Byte>)
    requires f.Ok() && Settled(f.W()) && Content(f.W()) == input && f.head == 0
    ensures InputAt(f, input, 0)
  {
  }

  lemma OpenedOut(f: CachedFile, was: seq<Byte>)
    requires f.Ok() && Growing(f.W()) && Content(f.W()) == was && f.head == 0
    ensures OutputHas(f, was, [])
  {
  }

  lemma Finished(order: seq<nat>, n: nat, block: nat, stride: nat, c: nat, width: nat, pos: nat)
    requires Positioned(n, block, stride, c, width, pos) && Holds(order, n, block, stride, c, width, pos)
             && |order| >= n
    ensures Increasing(order, block, stride) && |order| == n && forall i: nat :: i in order <==> i < n
  {
    IncreasingDistinct(order, block, stride);
    CoversIff(order, n);
  }

  lemma Starts(n: nat, block: nat, stride: nat)
    requires 1 <= block <= stride
    ensures Positioned(n, block, stride, 0, block, 0) && Holds([], n, block, stride, 0, block, 0)
  {
    DivUnique(0, stride, 0, 0);
    DivUnique(0, block, 0, 0);
  }

  lemma NothingYet(was: seq<Byte>, input: seq<Byte>)
    ensures PWrite(was, Gather(input, []), 0) == was
  {
    assert Gather(input, []) == [];
  }
}
