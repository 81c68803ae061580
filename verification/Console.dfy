/** The text console: an overlap-correct copy, the scrolling printer, and the endless tape it shows. */
module Console {
  import opened Arithmetic

  const COLUMNS: nat := 80
  const CELLS: nat := 2000

  /** Character and attribute. */
  type Cell = bv16
  datatype Glyph = Glyph(ch: bv8, color: Cell)

  // ----- memmove

  /** `n` elements of `was` from `src` copied to `dst`. */
  function Moved<T>(was: seq<T>, dst: nat, src: nat, n: nat): (r: seq<T>)
    requires dst + n <= |was| && src + n <= |was|
    ensures |r| == |was|
  {
    was[..dst] + was[src..src + n] + was[dst + n..]
  }

  /** The same copy with its first `left` elements still to come. */
  function MovedBack<T>(was: seq<T>, dst: nat, src: nat, n: nat, left: nat): (r: seq<T>)
    requires dst + n <= |was| && src + n <= |was| && left <= n
    ensures |r| == |was|
  {
    was[..dst + left] + was[src + left..src + n] + was[dst + n..]
  }

  lemma MoveStep<T>(was: seq<T>, dst: nat, src: nat, n: nat, k: nat)
    requires dst + n <= |was| && src + n <= |was| && k < n && (src >= dst || src + n <= dst)
    ensures Moved(was, dst, src, k)[src + k] == was[src + k]
    ensures Moved(was, dst, src, k)[dst + k := was[src + k]] == Moved(was, dst, src, k + 1)
  {
    assert was[src..src + k + 1] == was[src..src + k] + [was[src + k]];
    assert was[dst + k..] == [was[dst + k]] + was[dst + k + 1..];
  }

  lemma MoveBackStep<T>(was: seq<T>, dst: nat, src: nat, n: nat, k: nat)
    requires dst + n <= |was| && src + n <= |was| && k < n && src < dst
    ensures MovedBack(was, dst, src, n, k + 1)[src + k] == was[src + k]
    ensures MovedBack(was, dst, src, n, k + 1)[dst + k := was[src + k]] == MovedBack(was, dst, src, n, k)
  {
    assert was[src + k..src + n] == [was[src + k]] + was[src + k + 1..src + n];
    assert was[..dst + k + 1] == was[..dst + k] + [was[dst + k]];
  }

  lemma MovedEnds<T>(was: seq<T>, dst: nat, src: nat, n: nat)
    requires dst + n <= |was| && src + n <= |was|
    ensures Moved(was, dst, src, 0) == was == MovedBack(was, dst, src, n, n)
    ensures MovedBack(was, dst, src, n, 0) == Moved(was, dst, src, n)
  {
  }

  /** Copy inside one array, in the direction that reads each element before it is overwritten. */
  method Memmove<T>(a: array<T>, dst: nat, src: nat, n: nat)
    requires dst + n <= a.Length && src + n <= a.Length
    modifies a
    ensures a[..] == Moved(old(a[..]), dst, src, n)
    ensures forall i: nat :: i < a.Length ==> a[i] == if dst <= i < dst + n then old(a[src + (i - dst)]) else old(a[i])
  {
    hide Moved, MovedBack;
    ghost var was := a[..];
    MovedEnds(was, dst, src, n);
    if src < dst && src + n > dst {
      var left: nat := n;
      while left > 0
        invariant left <= n && a[..] == MovedBack(was, dst, src, n, left)
      {
        left := left - 1;
        MoveBackStep(was, dst, src, n, left);
        assert a[src + left] == a[..][src + left];
        a[dst + left] := a[src + left];
      }
    } else {
      var k: nat := 0;
      while k < n
        invariant k <= n && a[..] == Moved(was, dst, src, k)
      {
        MoveStep(was, dst, src, n, k);
        assert a[src + k] == a[..][src + k];
        a[dst + k] := a[src + k];
        k := k + 1;
      }
    }
    forall i: nat | i < a.Length
      ensures a[i] == if dst <= i < dst + n then old(a[src + (i - dst)]) else old(a[i])
    {
      MovedAt(was, dst, src, n, i);
      assert a[i] == a[..][i];
    }
  }

  lemma MovedAt<T>(was: seq<T>, dst: nat, src: nat, n: nat, i: nat)
    requires dst + n <= |was| && src + n <= |was| && i < |was|
    ensures Moved(was, dst, src, n)[i] == if dst <= i < dst + n then was[src + (i - dst)] else was[i]
  {
  }

  // ----- One character, on values

  function Zeros(n: nat): (r: seq<Cell>)
    ensures |r| == n && forall i: nat :: i < n ==> r[i] == 0
  {
    seq(n, (i: nat) => 0)
  }

  function Repeat(x: Cell, n: nat): (r: seq<Cell>)
    ensures |r| == n && forall i: nat :: i < n ==> r[i] == x
  {
    seq(n, (i: nat) => x)
  }

  /** The screen moved up one row. */
  function Scrolled(c: seq<Cell>): (r: seq<Cell>)
    requires |c| == CELLS
    ensures |r| == CELLS
  {
    c[COLUMNS..] + Zeros(COLUMNS)
  }

  /** `x` written to `k` cells from `at`. */
  function Filled(c: seq<Cell>, at: nat, x: Cell, k: nat): (r: seq<Cell>)
    requires at + k <= |c|
    ensures |r| == |c|
  {
    c[..at] + Repeat(x, k) + c[at + k..]
  }

  /** Screen and cursor once there is room for a cell. */
  function Room(c: seq<Cell>, cell: nat, scroll: bool): (r: (seq<Cell>, nat))
    requires |c| == CELLS && cell <= CELLS
    ensures |r.0| == CELLS && r.1 < CELLS
  {
    if cell < CELLS then (c, cell) else if scroll then (Scrolled(c), cell - COLUMNS) else (c, 0)
  }

  /** How many cells a character takes at a position, and what is written to them. */
  function Width(g: Glyph, at: nat): (r: nat)
    ensures 1 <= r <= COLUMNS
  {
    if g.ch == 10 then COLUMNS - at % COLUMNS else 1
  }

  function Mark(g: Glyph): Cell {
    if g.ch == 10 then 32 | g.color else (g.ch as Cell) | g.color
  }

  lemma WidthFits(g: Glyph, at: nat)
    requires at < CELLS
    ensures at + Width(g, at) <= CELLS
  {
  }

  function Put(c: seq<Cell>, cell: nat, scroll: bool, g: Glyph): (r: (seq<Cell>, nat))
    requires |c| == CELLS && cell <= CELLS
    ensures |r.0| == CELLS && 1 <= r.1 <= CELLS
  {
    var (d, at) := Room(c, cell, scroll);
    WidthFits(g, at);
    (Filled(d, at, Mark(g), Width(g, at)), at + Width(g, at))
  }

  lemma PutIs(c: seq<Cell>, cell: nat, scroll: bool, g: Glyph)
    requires |c| == CELLS && cell <= CELLS
    ensures var (d, at) := Room(c, cell, scroll);
            at + Width(g, at) <= CELLS
            && Put(c, cell, scroll, g) == (Filled(d, at, Mark(g), Width(g, at)), at + Width(g, at))
  {
    WidthFits(g, Room(c, cell, scroll).1);
  }

  /** What a character does to the cursor and to every cell, in the console's own terms. */
  lemma PutWrites(c: seq<Cell>, cell: nat, scroll: bool, ch: bv8, color: Cell)
    requires |c| == CELLS && cell <= CELLS
    ensures var d, end := Put(c, cell, scroll, Glyph(ch, color)).0, Put(c, cell, scroll, Glyph(ch, color)).1;
            var at := if cell < 2000 then cell else if scroll then 1920 else 0;
            && end == (if ch == 10 then (at / 80 + 1) * 80 else at + 1)
            && (ch != 10 ==> d[at] == (ch as Cell) | color)
            && (ch == 10 ==> forall i: nat :: at <= i < end ==> d[i] == 32 | color)
            && (cell < 2000 || !scroll ==> forall i: nat :: i < at || end <= i < 2000 ==> d[i] == c[i])
            && (cell == 2000 && scroll ==>
                  (forall i: nat :: i < 1920 ==> d[i] == c[i + 80]) && forall i: nat :: end <= i < 2000 ==> d[i] == 0)
  {
    hide Put, Mark;
    if ch == 10 {
      MarkNewline(color);
    } else {
      MarkChar(ch, color);
    }
    var g := Glyph(ch, color);
    var d, end := Put(c, cell, scroll, g).0, Put(c, cell, scroll, g).1;
    var at := if cell < 2000 then cell else if scroll then 1920 else 0;
    PutAt(c, cell, scroll, g, at);
    forall i: nat | at <= i < end ensures d[i] == Mark(g) {
      PutAt(c, cell, scroll, g, i);
    }
    if cell < 2000 || !scroll {
      forall i: nat | i < at || end <= i < 2000 ensures d[i] == c[i] { PutAt(c, cell, scroll, g, i); }
    } else {
      forall i: nat | i < 1920 ensures d[i] == c[i + 80] { PutAt(c, cell, scroll, g, i); }
      forall i: nat | end <= i < 2000 ensures d[i] == 0 { PutAt(c, cell, scroll, g, i); }
    }
  }

  lemma MarkChar(ch: bv8, color: Cell)
    requires ch != 10
    ensures Mark(Glyph(ch, color)) == (ch as Cell) | color
  {
  }

  lemma MarkNewline(color: Cell)
    ensures Mark(Glyph(10, color)) == 32 | color
  {
  }

  lemma OneCell(c: seq<Cell>, at: nat, x: Cell)
    requires at < |c|
    ensures Filled(c, at, x, 1) == c[at := x]
  {
  }

  /** What `Put` does to the cursor and to each cell. */
  lemma PutAt(c: seq<Cell>, cell: nat, scroll: bool, g: Glyph, i: nat)
    requires |c| == CELLS && cell <= CELLS && i < CELLS
    ensures var d, end := Put(c, cell, scroll, g).0, Put(c, cell, scroll, g).1;
            var at := if cell < 2000 then cell else if scroll then 1920 else 0;
            && end == (if g.ch == 10 then (at / 80 + 1) * 80 else at + 1)
            && d[i] == if at <= i < end then Mark(g)
                       else if cell < 2000 || !scroll then c[i] else if i < 1920 then c[i + 80] else 0
  {
    hide Filled, Scrolled, Width, Mark;
    var (d, at) := Room(c, cell, scroll);
    WidthFits(g, at);
    WidthIs(g, at);
    FilledAt(d, at, Mark(g), Width(g, at), i);
    ScrolledAt(c, i);
  }

  lemma WidthIs(g: Glyph, at: nat)
    ensures at + Width(g, at) == if g.ch == 10 then (at / 80 + 1) * 80 else at + 1
  {
  }

  lemma ScrolledAt(c: seq<Cell>, i: nat)
    requires |c| == CELLS && i < CELLS
    ensures Scrolled(c)[i] == if i < 1920 then c[i + 80] else 0
  {
  }

  lemma FilledAt(c: seq<Cell>, at: nat, x: Cell, k: nat, i: nat)
    requires at + k <= |c| && i < |c|
    ensures Filled(c, at, x, k)[i] == if at <= i < at + k then x else c[i]
  {
  }

  // ----- The tape

  /** The cells that `text` writes when the first falls on position `from`. */
  function Ink(text: seq<Glyph>, from: nat): seq<Cell> {
    if text == [] then []
    else
      var before := Ink(text[..|text| - 1], from);
      var g := text[|text| - 1];
      before + Repeat(Mark(g), Width(g, from + |before|))
  }

  /** An endless tape: the screen as it was, blank beyond it, and `ink` written from `from`. */
  function Tape(was: seq<Cell>, from: nat, ink: seq<Cell>, i: nat): Cell {
    if from <= i < from + |ink| then ink[i - from] else if i < |was| then was[i] else 0
  }

  /** The screen shows the rows of the tape from row `top`, and the cursor is where the ink ends. */
  predicate Shows(c: seq<Cell>, cell: nat, was: seq<Cell>, from: nat, ink: seq<Cell>, top: nat) {
    && |c| == |was| == CELLS && cell + top * COLUMNS == from + |ink|
    && forall i: nat :: i < CELLS ==> c[i] == Tape(was, from, ink, i + top * COLUMNS)
  }

  /** The first row of the last 25 rows with ink, or 0 if the ink is on the first screen. */
  function Top(n: nat): nat {
    if n <= CELLS then 0 else (n - 1) / COLUMNS - 24
  }

  lemma TopIs(n: nat, top: nat)
    requires top * COLUMNS <= n <= top * COLUMNS + CELLS && (top > 0 ==> n > top * COLUMNS + CELLS - COLUMNS)
    ensures top == Top(n)
  {
  }

  lemma TopBounds(n: nat)
    ensures Top(n) * COLUMNS <= n <= Top(n) * COLUMNS + CELLS && (Top(n) > 0 ==> n > Top(n) * COLUMNS + CELLS - COLUMNS)
  {
  }

  lemma ScrolledShows(c: seq<Cell>, was: seq<Cell>, from: nat, ink: seq<Cell>, top: nat)
    requires Shows(c, CELLS, was, from, ink, top)
    ensures Shows(Scrolled(c), CELLS - COLUMNS, was, from, ink, top + 1)
  {
    forall i: nat | i < CELLS ensures Scrolled(c)[i] == Tape(was, from, ink, i + (top + 1) * COLUMNS) {
      if i < CELLS - COLUMNS {
        assert Scrolled(c)[i] == c[i + COLUMNS];
      }
    }
  }

  lemma FilledShows(c: seq<Cell>, cell: nat, was: seq<Cell>, from: nat, ink: seq<Cell>, top: nat, x: Cell, k: nat)
    requires Shows(c, cell, was, from, ink, top) && cell + k <= CELLS
    ensures Shows(Filled(c, cell, x, k), cell + k, was, from, ink + Repeat(x, k), top)
  {
    var d := Filled(c, cell, x, k);
    forall i: nat | i < CELLS ensures d[i] == Tape(was, from, ink + Repeat(x, k), i + top * COLUMNS) {
      assert d[i] == if cell <= i < cell + k then x else c[i];
    }
  }

  /** One character on a scrolling screen is the same character on the tape. */
  lemma PutShows(c: seq<Cell>, cell: nat, was: seq<Cell>, from: nat, text: seq<Glyph>, g: Glyph)
    requires cell <= CELLS
    requires var ink := Ink(text, from); Shows(c, cell, was, from, ink, Top(from + |ink|))
    ensures var (d, at) := Put(c, cell, true, g);
            var ink := Ink(text + [g], from);
            Shows(d, at, was, from, ink, Top(from + |ink|))
  {
    hide Shows, Filled, Scrolled, Mark, Width;
    var ink := Ink(text, from);
    var top := Top(from + |ink|);
    TopBounds(from + |ink|);
    ShowsCursor(c, cell, was, from, ink, top);
    var top' := if cell == CELLS then top + 1 else top;
    if cell == CELLS {
      ScrolledShows(c, was, from, ink, top);
    }
    var (d, at) := Room(c, cell, true);
    WidthAlong(g, at, top');
    WidthFits(g, at);
    FilledShows(d, at, was, from, ink, top', Mark(g), Width(g, at));
    assert (text + [g])[..|text|] == text;
    TopIs(from + |ink| + Width(g, at), top');
  }

  lemma ShowsCursor(c: seq<Cell>, cell: nat, was: seq<Cell>, from: nat, ink: seq<Cell>, top: nat)
    requires Shows(c, cell, was, from, ink, top)
    ensures |c| == CELLS && cell + top * COLUMNS == from + |ink|
  {
  }

  lemma WidthAlong(g: Glyph, at: nat, top: nat)
    ensures Width(g, at + top * COLUMNS) == Width(g, at)
  {
  }

  /** Where ink cell `k` goes when the position wraps to the top of the screen. */
  function Slot(from: nat, k: nat): (r: nat)
    ensures r < CELLS
  {
    (from + k) % CELLS
  }

  /** Without scrolling each ink cell goes to its slot, over what was there. */
  function Wrapped(was: seq<Cell>, from: nat, ink: seq<Cell>): (r: seq<Cell>)
    requires |was| == CELLS
    ensures |r| == CELLS
  {
    if ink == [] then was
    else
      var n := |ink| - 1;
      Wrapped(was, from, ink[..n])[Slot(from, n) := ink[n]]
  }

  /** No ink from number `k` on falls on cell `i`. */
  predicate Clear(from: nat, ink: seq<Cell>, k: nat, i: nat) {
    forall j: nat :: k <= j < |ink| ==> Slot(from, j) != i
  }

  /** Cell `i` of a wrapped screen has the last ink that fell on it, or what was there if none did. */
  lemma {:induction false} WrappedLast(was: seq<Cell>, from: nat, ink: seq<Cell>, i: nat)
    requires |was| == CELLS && i < CELLS
    ensures (Clear(from, ink, 0, i) && Wrapped(was, from, ink)[i] == was[i])
            || exists k: nat ::
                 k < |ink| && Slot(from, k) == i && Clear(from, ink, k + 1, i) && Wrapped(was, from, ink)[i] == ink[k]
  {
    if ink != [] {
      var n := |ink| - 1;
      if Slot(from, n) == i {
        assert Clear(from, ink, n + 1, i);
      } else {
        var p := ink[..n];
        WrappedLast(was, from, p, i);
        if Clear(from, p, 0, i) && Wrapped(was, from, p)[i] == was[i] {
          assert Clear(from, ink, 0, i);
        } else {
          var k: nat :| k < |p| && Slot(from, k) == i && Clear(from, p, k + 1, i) && Wrapped(was, from, p)[i] == p[k];
          assert Clear(from, ink, k + 1, i);
        }
      }
    }
  }

  lemma {:induction false} WrappedFill(was: seq<Cell>, from: nat, ink: seq<Cell>, at: nat, x: Cell, k: nat)
    requires |was| == CELLS && at + k <= CELLS && (k > 0 ==> at == Slot(from, |ink|))
    ensures Wrapped(was, from, ink + Repeat(x, k)) == Filled(Wrapped(was, from, ink), at, x, k)
  {
    if k == 0 {
      assert ink + Repeat(x, k) == ink;
    } else {
      WrappedFill(was, from, ink, at, x, k - 1);
      assert (ink + Repeat(x, k))[..|ink| + k - 1] == ink + Repeat(x, k - 1);
      SlotAlong(from, |ink|, k - 1);
    }
  }

  lemma SlotAlong(from: nat, n: nat, k: nat)
    requires Slot(from, n) + k < CELLS
    ensures Slot(from, n + k) == Slot(from, n) + k
  {
  }

  /** The screen shows the wrapped ink, and the cursor is where it ends. */
  predicate ShowsWrapped(c: seq<Cell>, cell: nat, was: seq<Cell>, from: nat, ink: seq<Cell>) {
    |was| == CELLS && c == Wrapped(was, from, ink) && cell <= CELLS && cell % CELLS == Slot(from, |ink|)
  }

  /** One character on a screen that does not scroll. */
  lemma PutWraps(c: seq<Cell>, cell: nat, was: seq<Cell>, from: nat, text: seq<Glyph>, g: Glyph)
    requires ShowsWrapped(c, cell, was, from, Ink(text, from))
    ensures var (d, at) := Put(c, cell, false, g);
            ShowsWrapped(d, at, was, from, Ink(text + [g], from))
  {
    hide Filled, Mark, Wrapped, Width, Slot;
    var ink := Ink(text, from);
    SlotOf(cell, from, |ink|);
    var (d, at) := Room(c, cell, false);
    WidthAround(g, from + |ink|);
    WidthFits(g, at);
    WrappedFill(was, from, ink, at, Mark(g), Width(g, at));
    assert (text + [g])[..|text|] == text;
    SlotNext(from, |ink|, Width(g, at));
  }

  lemma SlotOf(cell: nat, from: nat, n: nat)
    requires cell <= CELLS && cell % CELLS == Slot(from, n)
    ensures Slot(from, n) == (if cell == CELLS then 0 else cell) == (from + n) % CELLS
  {
  }

  lemma SlotNext(from: nat, n: nat, k: nat)
    requires Slot(from, n) + k <= CELLS
    ensures (Slot(from, n) + k) % CELLS == Slot(from, n + k)
  {
    var q, r := (from + n) / CELLS, Slot(from, n);
    Parts(from + n, CELLS);
    if r + k < CELLS {
      DivUnique(from + n + k, CELLS, q, r + k);
    } else {
      DivUnique(from + n + k, CELLS, q + 1, 0);
    }
  }

  lemma WidthAround(g: Glyph, n: nat)
    ensures Width(g, n % CELLS) == Width(g, n)
  {
  }

  // ----- The printer

  class ConsolePrinter {
    const console: array<Cell>
    var cell: nat
    const scroll: bool
    var cursorpos: nat

    ghost predicate Valid()
      reads this
    {
      console.Length == CELLS && cell <= CELLS
    }

    constructor (console: array<Cell>, cursorpos: nat, cpos: int, scroll: bool)
      requires console.Length == CELLS && cursorpos <= CELLS
      ensures Valid() && this.console == console && this.cursorpos == cursorpos && this.scroll == scroll
      ensures cell == if cpos < 0 then cursorpos else if cpos <= CELLS then cpos else 0
    {
      this.console := console;
      this.cursorpos := cursorpos;
      this.scroll := scroll;
      cell := if cpos < 0 then cursorpos else if cpos <= CELLS then cpos else 0;
    }

    method Scroll()
      requires Valid() && cell == CELLS
      modifies this`cell, console
      ensures Valid() && (console[..], cell) == Room(old(console[..]), CELLS, scroll)
    {
      if scroll {
        Memmove(console, 0, COLUMNS, CELLS - COLUMNS);
        Set(CELLS - COLUMNS, COLUMNS);
        cell := cell - COLUMNS;
        assert console[..] == Scrolled(old(console[..]));
      } else {
        cell := 0;
      }
    }

    /** `memset` to zero. */
    method Set(from: nat, n: nat)
      requires from + n <= console.Length
      modifies console
      ensures console[..] == Filled(old(console[..]), from, 0, n)
    {
      var i := 0;
      while i < n
        invariant i <= n
        invariant console[..] == Filled(old(console[..]), from, 0, i)
      {
        console[from + i] := 0;
        i := i + 1;
      }
    }

    /** Cell by cell: a full screen first moves up by a row or starts again at the top; then the character goes to the
        cursor, or a newline blanks the rest of the row; everything else stays. */
    method Putc(ch: bv8, color: Cell)
      requires Valid()
      modifies this`cell, console
      ensures Valid() && (console[..], cell) == Put(old(console[..]), old(cell), scroll, Glyph(ch, color))
      ensures var at := if old(cell) < 2000 then old(cell) else if scroll then 1920 else 0;
              && cell == (if ch == 10 then (at / 80 + 1) * 80 else at + 1)
              && (ch != 10 ==> console[at] == (ch as Cell) | color)
              && (ch == 10 ==> forall i: nat :: at <= i < cell ==> console[i] == 32 | color)
              && (old(cell) < 2000 || !scroll ==>
                    forall i: nat :: i < at || cell <= i < 2000 ==> console[i] == old(console[i]))
              && (old(cell) == 2000 && scroll ==>
                    && (forall i: nat :: i < 1920 ==> console[i] == old(console[i + 80]))
                    && (forall i: nat :: cell <= i < 2000 ==> console[i] == 0))
    {
      hide Put, Filled, Scrolled, Width, Mark, Room;
      ghost var was, from := console[..], cell;
      MakeRoom();
      if ch == 10 {
        MarkNewline(color);
        Newline(color);
      } else {
        MarkChar(ch, color);
        Place((ch as Cell) | color);
        WidthIs(Glyph(ch, color), Room(was, from, scroll).1);
      }
      PutIs(was, from, scroll, Glyph(ch, color));
      PutWrites(was, from, scroll, ch, color);
      assert forall i: nat :: i < 2000 ==> console[i] == console[..][i];
      assert forall i: nat :: i < 2000 ==> old(console[i]) == was[i];
    }

    /** The loop that scrolls until there is room for a cell. */
    method MakeRoom()
      requires Valid()
      modifies this`cell, console
      ensures Valid() && cell < CELLS && (console[..], cell) == Room(old(console[..]), old(cell), scroll)
    {
      while cell >= CELLS
        invariant Valid() && Room(console[..], cell, scroll) == Room(old(console[..]), old(cell), scroll)
        decreases cell
      {
        Scroll();
      }
    }

    /** `*cell_++ = x`. */
    method Place(x: Cell)
      requires Valid() && cell < CELLS
      modifies this`cell, console
      ensures Valid() && cell == old(cell) + 1
      ensures console[..] == Filled(old(console[..]), old(cell), x, 1)
    {
      OneCell(console[..], cell, x);
      console[cell] := x;
      cell := cell + 1;
    }

    /** Blanks to the end of the row. */
    method Newline(color: Cell)
      requires Valid() && cell < CELLS
      modifies this`cell, console
      ensures Valid() && cell == old(cell) + Width(Glyph(10, color), old(cell))
      ensures console[..] == Filled(old(console[..]), old(cell), 32 | color, cell - old(cell))
    {
      ghost var d, at := console[..], cell;
      WidthFits(Glyph(10, color), cell);
      var pos := cell % COLUMNS;
      while pos != COLUMNS
        invariant at % COLUMNS <= pos <= COLUMNS && cell == at + (pos - at % COLUMNS)
        invariant console[..] == Filled(d, at, 32 | color, cell - at)
        decreases COLUMNS - pos
      {
        console[cell] := 32 | color;
        cell := cell + 1;
        pos := pos + 1;
      }
    }

    /** The loop of `console_puts`: a scrolling screen ends up showing the last 25 rows of the tape. */
    method Puts(color: Cell, s: seq<bv8>) returns (r: nat)
      requires Valid()
      modifies this, console
      ensures Valid() && r == cell && cursorpos == if scroll then cell else old(cursorpos)
      ensures (forall i: nat :: i < |s| ==> s[i] != 10) ==>
                var ink := Ink(Glyphs(s, color), old(cell));
                |ink| == |s| && forall i: nat :: i < |s| ==> ink[i] == (s[i] as Cell) | color
      ensures var ink := Ink(Glyphs(s, color), old(cell));
              if scroll then Shows(console[..], cell, old(console[..]), old(cell), ink, Top(old(cell) + |ink|))
              else ShowsWrapped(console[..], cell, old(console[..]), old(cell), ink)
    {
      hide Put, Filled, Ink, Shows, ShowsWrapped;
      ghost var was, from := console[..], cell;
      ghost var text: seq<Glyph> := [];
      Untouched(was, from);
      var i := 0;
      while i < |s|
        invariant i <= |s| && Valid() && text == Glyphs(s[..i], color) && cursorpos == old(cursorpos)
        invariant scroll ==> Shows(console[..], cell, was, from, Ink(text, from), Top(from + |Ink(text, from)|))
        invariant !scroll ==> ShowsWrapped(console[..], cell, was, from, Ink(text, from))
      {
        var g := Glyph(s[i], color);
        if scroll {
          PutShows(console[..], cell, was, from, text, g);
        } else {
          PutWraps(console[..], cell, was, from, text, g);
        }
        Putc(s[i], color);
        text := text + [g];
        i := i + 1;
      }
      assert s[..|s|] == s;
      if forall k: nat :: k < |s| ==> s[k] != 10 {
        PlainInk(s, color, from);
      }
      if scroll {
        cursorpos := cell;
      }
      return cell;
    }
  }

  function Glyphs(s: seq<bv8>, color: Cell): (r: seq<Glyph>)
    ensures |r| == |s| && forall i: nat :: i < |s| ==> r[i] == Glyph(s[i], color)
  {
    seq(|s|, (i: nat) requires i < |s| => Glyph(s[i], color))
  }

  lemma Untouched(was: seq<Cell>, from: nat)
    requires |was| == CELLS && from <= CELLS
    ensures Shows(was, from, was, from, Ink([], from), Top(from + |Ink([], from)|))
    ensures ShowsWrapped(was, from, was, from, Ink([], from))
  {
  }

  /** Printing in two parts is printing the whole: the second part only adds to the tape. */
  lemma {:induction false} InkAppend(a: seq<Glyph>, b: seq<Glyph>, from: nat)
    ensures Ink(a + b, from) == Ink(a, from) + Ink(b, from + |Ink(a, from)|)
  {
    if b == [] {
      assert a + b == a;
    } else {
      var n := |b| - 1;
      InkAppend(a, b[..n], from);
      assert (a + b)[..|a| + n] == a + b[..n];
    }
  }

  lemma InkRun(text: seq<Glyph>, from: nat, i: nat)
    requires i < |text|
    ensures var a, b := |Ink(text[..i], from)|, |Ink(text[..i + 1], from)|;
            && a < b <= |Ink(text, from)| && b == a + Width(text[i], from + a)
            && forall k: nat :: a <= k < b ==> Ink(text, from)[k] == Mark(text[i])
  {
    hide Width, Mark;
    var p, q := text[..i], text[..i + 1];
    assert q[..i] == p && text == q + text[i + 1..];
    InkAppend(q, text[i + 1..], from);
  }

  /** On the tape a character other than a newline is one cell, right after the characters before it. */
  lemma InkOfChar(text: seq<Glyph>, from: nat, i: nat, ch: bv8, color: Cell)
    requires i < |text| && text[i] == Glyph(ch, color) && ch != 10
    ensures var a := |Ink(text[..i], from)|;
            |Ink(text[..i + 1], from)| == a + 1 <= |Ink(text, from)| && Ink(text, from)[a] == (ch as Cell) | color
  {
    hide Width, Mark, Ink;
    InkRun(text, from, i);
    WidthIs(text[i], from + |Ink(text[..i], from)|);
    MarkChar(ch, color);
  }

  /** A newline is blanks to the end of its row. */
  lemma InkOfNewline(text: seq<Glyph>, from: nat, i: nat, color: Cell)
    requires i < |text| && text[i] == Glyph(10, color)
    ensures var a, b := |Ink(text[..i], from)|, |Ink(text[..i + 1], from)|;
            && from + b == ((from + a) / 80 + 1) * 80 && b <= |Ink(text, from)|
            && forall k: nat :: a <= k < b ==> Ink(text, from)[k] == 32 | color
  {
    hide Width, Mark, Ink;
    InkRun(text, from, i);
    WidthIs(text[i], from + |Ink(text[..i], from)|);
    MarkNewline(color);
  }

  /** A text without newlines is its characters on the tape, one after the other. */
  lemma PlainInk(s: seq<bv8>, color: Cell, from: nat)
    requires forall i: nat :: i < |s| ==> s[i] != 10
    ensures var ink := Ink(Glyphs(s, color), from);
            |ink| == |s| && forall i: nat :: i < |s| ==> ink[i] == (s[i] as Cell) | color
  {
    hide Width, Mark, Ink;
    PlainRun(Glyphs(s, color), from);
    forall i: nat | i < |s| ensures Ink(Glyphs(s, color), from)[i] == (s[i] as Cell) | color {
      MarkChar(s[i], color);
    }
  }

  lemma {:induction false} PlainRun(text: seq<Glyph>, from: nat)
    requires forall i: nat :: i < |text| ==> text[i].ch != 10
    ensures |Ink(text, from)| == |text| && forall i: nat :: i < |text| ==> Ink(text, from)[i] == Mark(text[i])
  {
    hide Width, Mark;
    if text != [] {
      var n := |text| - 1;
      PlainRun(text[..n], from);
      WidthIs(text[n], from + n);
    }
  }
}
