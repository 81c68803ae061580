/** Whole runs of the caching library against the uncached one. */
module CacheRuns {
  import opened OsFile
  import opened CacheWindow
  import opened CacheReach
  import opened CachedFile

  /** Every call of the run satisfies `ok` of the uncached file it meets. */
  ghost predicate Always(f: File, ops: seq<Op>, ok: (File, Op) -> bool) {
    forall i: nat :: i < |ops| ==> ok(NaiveRun(f, ops[..i]).0, ops[i])
  }

  /** Reads, writes and flushes directly follow seeks, and writes fit in the cache. */
  predicate SeekFirst(ops: seq<Op>) {
    forall i: nat :: i < |ops| && !ops[i].Seek? ==>
      i > 0 && ops[i - 1].Seek? && (ops[i].Write? ==> |ops[i].data| <= CACHE_SIZE)
  }

  /** Every flush directly follows a call that meets the end of the file. */
  ghost predicate FlushesAtEnd(f: File, ops: seq<Op>) {
    forall i: nat :: i < |ops| && ops[i].Flush? ==> i > 0 && MeetsEnd(NaiveRun(f, ops[..i - 1]).0, ops[i - 1])
  }

  /** A seek follows every flush. */
  predicate SeekAfterFlush(ops: seq<Op>) {
    forall i: nat :: i + 1 < |ops| && ops[i].Flush? ==> ops[i + 1].Seek?
  }

  /** Calls that never grow the file, with a seek after every flush. */
  ghost predicate InPlace(f: File, ops: seq<Op>) {
    Always(f, ops, Inside) && SeekAfterFlush(ops)
  }

  /** The ways of using the library that its recorded file size, which writes do not raise, and its flush, which does
      not reload the window, allow for. */
  ghost predicate Disciplined(f: File, ops: seq<Op>) {
    FlushesAtEnd(f, ops) && (InPlace(f, ops) || Always(f, ops, Appending) || SeekFirst(ops))
  }

  lemma RunStep(f: File, ops: seq<Op>, i: nat)
    requires i < |ops|
    ensures NaiveRun(f, ops[..i + 1]).0 == Naive(NaiveRun(f, ops[..i]).0, ops[i]).0
    ensures NaiveRun(f, ops[..i + 1]).1 == NaiveRun(f, ops[..i]).1 + [Naive(NaiveRun(f, ops[..i]).0, ops[i]).1]
  {
    assert ops[..i + 1][..i] == ops[..i];
  }

  /** The state meets the discipline before call `i`. */
  ghost predicate Ready(f: File, ops: seq<Op>, w: Window, i: nat)
    requires Placed(w)
  {
    && (InPlace(f, ops) ==> Resting(w) && ((0 < i <= |ops| && ops[i - 1].Flush?) || Settled(w)))
    && (Always(f, ops, Appending) ==> Growing(w))
    && (SeekFirst(ops) && 0 < i <= |ops| && ops[i - 1].Seek? ==> Loaded(w) && w.head == w.start <= w.size)
    && (0 < i <= |ops| && MeetsEnd(NaiveRun(f, ops[..i - 1]).0, ops[i - 1]) ==> w.head == w.end)
  }

  lemma ReadyIsRight(f: File, ops: seq<Op>, w: Window, i: nat)
    requires i < |ops| && Disciplined(f, ops) && Valid(w) && Ready(f, ops, w, i)
    requires File(Content(w), w.head) == NaiveRun(f, ops[..i]).0
    ensures Right(w, ops[i])
  {
    hide Agrees, NaiveRun, CanWrite, Content, RightRead, MeetsEnd;
    if Loaded(w) && w.head <= w.size {
      LoadedRight(w, 1);
      LoadedRight(w, if ops[i].Read? then ops[i].n else 0);
    }
    CanWriteWhen(w, if ops[i].Write? then |ops[i].data| else 0);
    if ops[i].Flush? {
      assert MeetsEnd(NaiveRun(f, ops[..i - 1]).0, ops[i - 1]);
    } else if InPlace(f, ops) {
      assert Inside(NaiveRun(f, ops[..i]).0, ops[i]);
      AfterFlushSeeks(ops, i);
    } else if Always(f, ops, Appending) {
      assert Appending(NaiveRun(f, ops[..i]).0, ops[i]);
    }
  }

  lemma AfterFlushSeeks(ops: seq<Op>, i: nat)
    requires SeekAfterFlush(ops) && i < |ops|
    ensures i > 0 && ops[i - 1].Flush? ==> ops[i].Seek?
  {
    if i > 0 { assert ops[i - 1 + 1] == ops[i]; }
  }

  lemma LoadedRight(w: Window, n: nat)
    requires Valid(w) && Loaded(w) && w.head <= w.size
    ensures RightRead(w, n)
  {
    hide Agrees, PWrite, Content, Tail;
    SkimLoaded(w, Min(n, w.end - w.head));
  }

  /** A call that meets the end of the file is a seek, or a read within the recorded size. */
  lemma MeetsEndWithin(f: File, ops: seq<Op>, w: Window, i: nat)
    requires i < |ops| && Disciplined(f, ops) && Placed(w) && Ready(f, ops, w, i)
    requires MeetsEnd(NaiveRun(f, ops[..i]).0, ops[i])
    ensures ops[i].Seek? || w.head <= w.size
  {
    hide NaiveRun, Loaded, Growing;
    if InPlace(f, ops) {
      AfterFlushSeeks(ops, i);
    } else if Always(f, ops, Appending) {
      assert Appending(NaiveRun(f, ops[..i]).0, ops[i]);
    }
  }

  lemma ReadyStays(f: File, ops: seq<Op>, w: Window, x: Window, i: nat)
    requires i < |ops| && Disciplined(f, ops) && Placed(w) && Placed(x) && Ready(f, ops, w, i) && Kept(w, ops[i], x)
    requires File(Content(w), w.head) == NaiveRun(f, ops[..i]).0
    ensures Ready(f, ops, x, i + 1)
  {
    if MeetsEnd(NaiveRun(f, ops[..i]).0, ops[i]) { MeetsEndWithin(f, ops, w, i); }
    hide Agrees, NaiveRun, Growing, Loaded, MeetsEnd, FlushesAtEnd, Full;
    if InPlace(f, ops) {
      AfterFlushSeeks(ops, i);
      assert Inside(NaiveRun(f, ops[..i]).0, ops[i]);
    }
    if Always(f, ops, Appending) {
      assert Appending(NaiveRun(f, ops[..i]).0, ops[i]);
    }
  }

  /** Open a file, make the calls, close it: every answer and the file left behind are the uncached library's. */
  method Replay(contents: seq<Byte>, ops: seq<Op>) returns (answers: seq<Outcome>, left: seq<Byte>)
    requires Disciplined(File(contents, 0), ops)
    ensures (left, answers) == (NaiveRun(File(contents, 0), ops).0.content, NaiveRun(File(contents, 0), ops).1)
  {
    hide Settled, Growing, Loaded, Agrees, NaiveRun, Naive, Content, Right, Kept, Ready, Disciplined, Placed, Reached;
    ghost var f := File(contents, 0);
    var c := new CachedFile(contents);
    answers := [];
    Begins(f, ops, c.W());
    var i := 0;
    while i < |ops|
      invariant i <= |ops| && fresh(c) && fresh(c.cache) && c.Ok()
      invariant Placed(c.W()) && Ready(f, ops, c.W(), i)
      invariant (File(Content(c.W()), c.head), answers) == NaiveRun(f, ops[..i])
    {
      ReadyIsRight(f, ops, c.W(), i);
      ghost var w := c.W();
      var o := c.Do(ops[i]);
      ReadyStays(f, ops, w, c.W(), i);
      RunStep(f, ops, i);
      answers := answers + [o];
      i := i + 1;
    }
    assert ops[..|ops|] == ops;
    c.Close();
    left := c.disk;
  }

  lemma Begins(f: File, ops: seq<Op>, w: Window)
    requires Valid(w) && Settled(w) && Growing(w) && !w.dirty && f == File(w.disk, w.head)
    ensures Ready(f, ops, w, 0) && (File(Content(w), w.head), []) == NaiveRun(f, ops[..0])
  {
  }

  // ----- Outside the disciplines

  /** An explicit `io300_flush` leaves a state that the next call's assertions accept, and the file as it was meant
      to be, exactly when the window was used up. What reads return then is for `AfterFlush` to say. */
  lemma FlushKeepsIff(w: Window)
    requires Valid(w)
    ensures Valid(Flushed(w)) && Content(Flushed(w)) == Content(w) <==> w.head == w.end
  {
    FlushedContent(w);
  }

  /** Opening an empty file, flushing and reading returns whatever the cache held. */
  lemma EmptyFlushFails(buf: seq<Byte>)
    requires |buf| == CACHE_SIZE
    ensures var x := Flushed(OpenedEmpty(buf));
            Valid(x) && Content(x) == [] && GetC(x).1 == buf[0] && !RightRead(x, 1)
    ensures NaiveRun(File([], 0), [Flush, ReadC]).1 == [Synced, Char(-1)]
  {
    var w := OpenedEmpty(buf);
    AfterFlush(w, 1);
    var f := File([], 0);
    assert [Flush, ReadC][..1] == [Flush] && [Flush][..0] == [];
    NaiveReadC([], 0);
  }

  /** Reading the first window of a longer file to its end and flushing: the next read begins the file again. */
  lemma SecondWindowFlushFails(disk: seq<Byte>)
    requires |disk| > CACHE_SIZE
    ensures var w := Window(disk, disk[..CACHE_SIZE], false, CACHE_SIZE, 0, CACHE_SIZE, |disk|);
            && Valid(w) && Settled(w)
            && var x := Flushed(w);
            && Valid(x) && Content(x) == disk && GetC(x).1 == disk[0]
            && Naive(File(disk, CACHE_SIZE), ReadC).1 == Char(disk[CACHE_SIZE])
            && (RightRead(x, 1) <==> disk[0] == disk[CACHE_SIZE])
  {
    var w := Window(disk, disk[..CACHE_SIZE], false, CACHE_SIZE, 0, CACHE_SIZE, |disk|);
    AfterFlush(w, 1);
    NaiveReadC(disk, CACHE_SIZE);
    assert w.buf[..1] == [disk[0]] && disk[CACHE_SIZE..CACHE_SIZE + 1] == [disk[CACHE_SIZE]];
  }

  /** A flush in the middle of a window: two bytes are loaded and one is read. The window is then longer than the
      cache, which fails the next call's assertions, and the byte the library would read next is the one it has read. */
  lemma MidWindowFlushFails(w: Window, a: Byte, b: Byte)
    requires Placed(w) && w.disk == [a, b] && w.buf[0] == a && w.buf[1] == b && !w.dirty
    requires w.start == 0 && w.head == 1 && w.end == w.size == 2
    ensures Valid(w)
    ensures var x := Flushed(w);
            x.end - x.start > CACHE_SIZE && x.buf[x.head - x.start] == a && Content(w)[x.head] == b
  {
  }

  /** The state that opening an empty file gives, whatever the memory of the cache holds. */
  function OpenedEmpty(buf: seq<Byte>): (w: Window)
    requires |buf| == CACHE_SIZE
    ensures Valid(w) && Reached(w) && w.disk == [] && w.head == w.start == w.end == w.size == 0 && !w.dirty
  {
    Window([], buf, false, 0, 0, 0, 0)
  }

  /** Growing a file and then reading past the recorded size: two bytes are written to an empty file, the
      head goes back to the start, and the second read reports the end of the file. */
  lemma GrowThenReadFails(buf: seq<Byte>, a: Byte, b: Byte)
    requires |buf| == CACHE_SIZE
    ensures
      var x0 := OpenedEmpty(buf);
      var x1 := PutC(x0, a);
      Valid(x1) &&
      var x2 := PutC(x1, b);
      Valid(x2) &&
      var x3 := Sought(x2, 0);
      Valid(x3) && Content(x3) == [a, b] &&
      var (x4, c) := GetC(x3);
      Valid(x4) && c == a && x4.head == 1 && GetC(x4).1 == -1
    ensures NaiveRun(File([], 0), [WriteC(a), WriteC(b), Seek(0), ReadC, ReadC]).1 ==
              [Wrote(a), Wrote(b), Moved(0), Char(a), Char(b)]
  {
    var x0 := OpenedEmpty(buf);
    FirstPut(x0, a);
    var x1 := PutC(x0, a);
    SecondPut(x1, a, b);
    var x2 := PutC(x1, b);
    SeekBack(x2, a, b);
    hide GetC, PutC, Sought, Valid, Placed, Content, NaiveRun;
    FirstRead(Sought(x2, 0), a, b);
    FiveSteps(a, b);
  }

  /** A recorded size beyond the disk: after seeks to 100 and back to 0 one byte is written to an empty file, and
      the next read returns whatever the cache held and makes it part of the file. */
  lemma StaleReadFails(buf: seq<Byte>, a: Byte)
    requires |buf| == CACHE_SIZE
    ensures
      var x1 := Sought(OpenedEmpty(buf), 100);
      Valid(x1) &&
      var x2 := Sought(x1, 0);
      Valid(x2) &&
      var x3 := PutC(x2, a);
      Valid(x3) && Content(x3) == [a] &&
      var (x4, c) := GetC(x3);
      Placed(x4) && c == buf[1] && Content(x4) == [a, buf[1]]
    ensures NaiveRun(File([], 0), [Seek(100), Seek(0), WriteC(a), ReadC]) ==
              (File([a], 1), [Moved(100), Moved(0), Wrote(a), Char(-1)])
  {
    hide Agrees, PWrite, Content, Tail, PutC, GetC, Sought, Reached, NaiveRun;
    var x0 := OpenedEmpty(buf);
    StaleSeek(x0);
    var x2 := Sought(Sought(x0, 100), 0);
    StalePut(x2, a);
    StaleGet(PutC(x2, a), a);
    StaleSteps(a);
  }

  lemma StaleSeek(x: Window)
    requires Valid(x) && x.disk == [] && x.head == x.start == x.end == x.size == 0 && !x.dirty
    ensures var y := Sought(x, 100);
            && Valid(y)
            && var z := Sought(y, 0);
            && Valid(z) && Reached(z) && z.buf == x.buf && z.disk == [] && z.head == z.start == z.end == 0 && !z.dirty
            && z.size == 100
  {
    SoughtLoaded(x, 100);
    var y := Sought(x, 100);
    SoughtLoaded(y, 0);
    SoughtReached(y, 0);
    hide Agrees, PWrite;
  }

  lemma StaleGet(x: Window, a: Byte)
    requires Valid(x) && Reached(x) && Content(x) == [a] && x.head == 1 && x.start == 0 && x.end == CACHE_SIZE
             && x.size == 100
    ensures var (y, c) := GetC(x); Placed(y) && c == x.buf[1] && Content(y) == [a, x.buf[1]]
  {
    StaleByte(x);
    hide GetC, Content, Agrees, Tail;
  }

  lemma StalePut(x: Window, a: Byte)
    requires Valid(x) && Reached(x) && x.disk == [] && x.head == x.start == x.end == 0 && !x.dirty && x.size == 100
    ensures var y := PutC(x, a);
            && Valid(y) && Reached(y) && Content(y) == [a] && y.head == 1 && y.start == 0 && y.end == CACHE_SIZE
            && y.size == 100 && y.buf[1] == x.buf[1]
  {
    PutCIs(x, a);
    PutCReached(x, a);
    hide Agrees;
  }

  /** A long write under a recorded size beyond the disk: after seeks to twice the cache size and back to 0, writing
      one byte more than the cache holds meets a failing assertion. */
  lemma LongWriteFails(buf: seq<Byte>, data: seq<Byte>)
    requires |buf| == CACHE_SIZE && |data| == CACHE_SIZE + 1
    ensures var x := Sought(Sought(OpenedEmpty(buf), 2 * CACHE_SIZE), 0);
            Valid(x) && !CanWrite(x, |data|) && !Passes(x, data)
  {
    var x0 := OpenedEmpty(buf);
    SoughtLoaded(x0, 2 * CACHE_SIZE);
    var x1 := Sought(x0, 2 * CACHE_SIZE);
    SoughtLoaded(x1, 0);
    var x := Sought(x1, 0);
    hide Sought, Passes;
    PassesIff(x, data);
  }

  lemma FirstPut(x: Window, a: Byte)
    requires Valid(x) && x.disk == [] && x.head == x.start == x.end == x.size == 0 && !x.dirty
    ensures var y := PutC(x, a); Valid(y) && Content(y) == [a] && y.head == 1 && y.size == 0
  {
    PutCIs(x, a);
    hide PutC;
  }

  lemma SecondPut(x: Window, a: Byte, b: Byte)
    requires Valid(x) && Content(x) == [a] && x.head == 1 && x.size == 0
    ensures var y := PutC(x, b); Valid(y) && Content(y) == [a, b] && y.size == 0
  {
    PutCIs(x, b);
    hide PutC;
  }

  lemma SeekBack(x: Window, a: Byte, b: Byte)
    requires Valid(x) && Content(x) == [a, b] && x.size == 0
    ensures var y := Sought(x, 0);
            Valid(y) && Content(y) == [a, b] && Reached(y) && y.head == y.end == y.size == 0
  {
    SoughtLoaded(x, 0);
    SoughtReached(x, 0);
  }

  lemma FirstRead(x: Window, a: Byte, b: Byte)
    requires Valid(x) && Reached(x) && Content(x) == [a, b] && x.head == x.end == x.size == 0
    ensures var (y, c) := GetC(x); Valid(y) && c == a && y.head == 1 && GetC(y).1 == -1
  {
    ReadCRightIff(x);
    GetCReached(x);
    NaiveReadC([a, b], 0);
    hide Naive, Content, Agrees, Refilled, Tail;
  }

  lemma Then(f: File, ops: seq<Op>, op: Op)
    ensures NaiveRun(f, ops + [op]) ==
            (Naive(NaiveRun(f, ops).0, op).0, NaiveRun(f, ops).1 + [Naive(NaiveRun(f, ops).0, op).1])
  {
    assert (ops + [op])[..|ops|] == ops;
  }

  lemma FiveSteps(a: Byte, b: Byte)
    ensures NaiveRun(File([], 0), [WriteC(a), WriteC(b), Seek(0), ReadC, ReadC]).1 ==
              [Wrote(a), Wrote(b), Moved(0), Char(a), Char(b)]
  {
    hide NaiveRun;
    var f := File([], 0);
    Nothing(f);
    Then(f, [], WriteC(a));
    Then(f, [] + [WriteC(a)], WriteC(b));
    Then(f, [] + [WriteC(a)] + [WriteC(b)], Seek(0));
    Then(f, [] + [WriteC(a)] + [WriteC(b)] + [Seek(0)], ReadC);
    Then(f, [] + [WriteC(a)] + [WriteC(b)] + [Seek(0)] + [ReadC], ReadC);
    assert NaiveRun(f, [] + [WriteC(a)]).0 == File([a], 1);
    assert NaiveRun(f, [] + [WriteC(a)] + [WriteC(b)]).0 == File([a, b], 2);
    assert [] + [WriteC(a)] + [WriteC(b)] + [Seek(0)] + [ReadC] + [ReadC] ==
           [WriteC(a), WriteC(b), Seek(0), ReadC, ReadC];
  }

  lemma StaleSteps(a: Byte)
    ensures NaiveRun(File([], 0), [Seek(100), Seek(0), WriteC(a), ReadC]) ==
              (File([a], 1), [Moved(100), Moved(0), Wrote(a), Char(-1)])
  {
    hide NaiveRun;
    var f := File([], 0);
    Nothing(f);
    Then(f, [], Seek(100));
    Then(f, [] + [Seek(100)], Seek(0));
    Then(f, [] + [Seek(100)] + [Seek(0)], WriteC(a));
    Then(f, [] + [Seek(100)] + [Seek(0)] + [WriteC(a)], ReadC);
    assert NaiveRun(f, [] + [Seek(100)] + [Seek(0)] + [WriteC(a)]).0 == File([a], 1);
    NaiveReadC([a], 1);
    assert [] + [Moved(100)] + [Moved(0)] + [Wrote(a)] + [Char(-1)] == [Moved(100), Moved(0), Wrote(a), Char(-1)];
    assert [] + [Seek(100)] + [Seek(0)] + [WriteC(a)] + [ReadC] == [Seek(100), Seek(0), WriteC(a), ReadC];
  }

  lemma Nothing(f: File)
    ensures NaiveRun(f, []) == (f, [])
  {
  }
}
