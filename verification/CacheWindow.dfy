/** The state of the caching library as a value: the window over the file and what it stands for. */
module CacheWindow {
  import opened OsFile

  /** Any cache size the source accepts. */
  type CacheSize = c: nat | c >= 4 witness 4096
  const CACHE_SIZE: CacheSize

  /** `disk` is the file as the operating system has it; `buf` the cache; `end` is `cache_end`,
      `size` is `file_size`. */
  datatype Window = Window(disk: seq<Byte>, buf: seq<Byte>, dirty: bool, head: nat, start: nat, end: nat, size: nat)

  /** Sizes and positions make sense; the head may have run past the loaded part. */
  predicate Placed(w: Window) {
    && |w.buf| == CACHE_SIZE
    && w.start <= w.head <= w.start + CACHE_SIZE && w.start <= w.end <= w.start + CACHE_SIZE
  }

  /** What the file is meant to contain: the disk with the dirty bytes, those before the head, written to it. */
  function Content(w: Window): seq<Byte>
    requires Placed(w)
  {
    if w.dirty then PWrite(w.disk, w.buf[..w.head - w.start], w.start) else w.disk
  }

  /** Bytes `from` to `to` of the buffer are those of `f` from `start`. */
  predicate Agrees(buf: seq<Byte>, f: seq<Byte>, start: nat, from: nat, to: nat) {
    && to <= |buf| && (from < to ==> start + to <= |f|)
    && forall i: nat :: from <= i < to ==> buf[i] == f[start + i]
  }

  /** The buffer is right up to the head. */
  predicate Half(w: Window) {
    Placed(w) && Agrees(w.buf, Content(w), w.start, 0, w.head - w.start)
  }

  /** The state between calls. */
  predicate Valid(w: Window) {
    Half(w) && w.head <= w.end
  }

  /** The bytes from the head to the end of the window are loaded. */
  predicate Loaded(w: Window)
    requires Placed(w)
  {
    Agrees(w.buf, Content(w), w.start, w.head - w.start, w.end - w.start)
  }

  /** The window is loaded and reaches as far as the disk allows. */
  predicate Full(w: Window)
    requires Placed(w)
  {
    Loaded(w) && w.end == Max(w.start, Min(w.start + CACHE_SIZE, |w.disk|))
  }

  /** The recorded size is not beyond the disk, and the window reaches up to it. */
  predicate Growing(w: Window)
    requires Placed(w)
  {
    w.start <= |w.disk| && w.size <= |w.disk| && w.end >= Min(w.start + CACHE_SIZE, w.size)
  }

  // ----- Sequences

  lemma AgreeSub(buf: seq<Byte>, f: seq<Byte>, start: nat, from: nat, to: nat, from': nat, to': nat)
    requires Agrees(buf, f, start, from, to) && from <= from' && to' <= to
    ensures Agrees(buf, f, start, from', to')
  {
  }

  lemma AgreeJoin(buf: seq<Byte>, f: seq<Byte>, start: nat, from: nat, mid: nat, to: nat)
    requires Agrees(buf, f, start, from, mid) && Agrees(buf, f, start, mid, to)
    ensures Agrees(buf, f, start, from, to)
  {
  }

  lemma AgreeSlice(buf: seq<Byte>, f: seq<Byte>, start: nat, from: nat, to: nat)
    requires from <= to && Agrees(buf, f, start, from, to)
    ensures from < to ==> start + to <= |f| && buf[from..to] == f[start + from..start + to]
  {
    if from < to {
      forall i: nat | i < to - from ensures buf[from..to][i] == f[start + from..start + to][i] {
        assert buf[from + i] == f[start + (from + i)];
      }
    }
  }

  /** Bytes that agree with the contents may join the dirty part. */
  lemma TakeAgreed(disk: seq<Byte>, buf: seq<Byte>, start: nat, h: nat, n: nat)
    requires h + n <= |buf| && Agrees(buf, PWrite(disk, buf[..h], start), start, h, h + n)
    ensures PWrite(disk, buf[..h + n], start) == PWrite(disk, buf[..h], start)
  {
    hide PWrite, Agrees;
    var f := PWrite(disk, buf[..h], start);
    AgreeSlice(buf, f, start, h, h + n);
    assert buf[..h + n] == buf[..h] + buf[h..h + n];
    WriteWrite(disk, buf[..h], buf[h..h + n], start);
    WriteSame(f, buf[h..h + n], start + h);
  }

  /** Copy `data` over `buf` at `at`. */
  function Overlay(buf: seq<Byte>, at: nat, data: seq<Byte>): (r: seq<Byte>)
    requires at + |data| <= |buf|
    ensures |r| == |buf|
    ensures forall i: nat :: i < |buf| ==> r[i] == if at <= i < at + |data| then data[i - at] else buf[i]
  {
    buf[..at] + data + buf[at + |data|..]
  }

  // ----- flush, fetch, seek

  /** `io300_flush`. */
  function Flushed(w: Window): Window
    requires Placed(w)
  {
    w.(disk := PWrite(w.disk, w.buf[..w.head - w.start], w.start), dirty := false, start := w.head,
        end := w.end + CACHE_SIZE)
  }

  lemma FlushedContent(w: Window)
    requires Half(w)
    ensures Flushed(w).disk == Content(w)
  {
    if !w.dirty {
      AgreeSlice(w.buf, w.disk, w.start, 0, w.head - w.start);
      assert w.buf[0..w.head - w.start] == w.buf[..w.head - w.start];
      WriteSame(w.disk, w.buf[..w.head - w.start], w.start);
    }
  }

  /** A window filled from the disk at `pos` with at most `n` bytes. */
  function Filled(w: Window, pos: nat, n: nat): Window
    requires |w.buf| == CACHE_SIZE && n <= CACHE_SIZE
  {
    var got := PRead(w.disk, n, pos);
    w.(buf := Overlay(w.buf, 0, got), dirty := false, head := pos, start := pos, end := pos + |got|)
  }

  lemma FilledLoaded(w: Window, pos: nat, n: nat)
    requires |w.buf| == CACHE_SIZE && n <= CACHE_SIZE
    ensures var x := Filled(w, pos, n);
            && Valid(x) && Loaded(x) && Content(x) == w.disk && x.end == Max(pos, Min(pos + n, |w.disk|))
            && x.disk == w.disk && x.size == w.size && !x.dirty && x.head == x.start == pos
  {
    var x := Filled(w, pos, n);
    var got := PRead(w.disk, n, pos);
    forall i: nat | i < |got| ensures x.buf[i] == w.disk[pos + i] {
      assert x.buf[i] == got[i];
    }
  }

  /** `io300_fetch`, always forward. */
  function Fetched(w: Window): Window
    requires Placed(w)
  {
    if w.dirty then Filled(Flushed(w), w.head, CACHE_SIZE) else Filled(w, w.end, CACHE_SIZE)
  }

  lemma FetchedLoaded(w: Window)
    requires Half(w) && (!w.dirty ==> w.head == w.end)
    ensures var x := Fetched(w);
            && Valid(x) && Full(x) && Content(x) == Content(w) == x.disk && x.head == w.head && x.start == w.head
            && x.size == w.size && !x.dirty
  {
    if w.dirty {
      FlushedContent(w);
      FilledLoaded(Flushed(w), w.head, CACHE_SIZE);
    } else {
      FilledLoaded(w, w.end, CACHE_SIZE);
    }
  }

  /** `io300_seek`. */
  function Sought(w: Window, pos: nat): Window
    requires Placed(w)
  {
    Landed(if w.dirty then Flushed(w) else w, pos)
  }

  /** The window at `pos`, loaded up to the recorded size, which a position beyond it raises. */
  function Landed(w: Window, pos: nat): Window
    requires |w.buf| == CACHE_SIZE
  {
    if pos > w.size then w.(head := pos, start := pos, end := pos, size := pos)
    else Filled(w, pos, if pos + CACHE_SIZE > w.size then w.size - pos else CACHE_SIZE)
  }

  lemma SoughtLoaded(w: Window, pos: nat)
    requires Valid(w)
    ensures var x := Sought(w, pos);
            && Valid(x) && Loaded(x) && Content(x) == Content(w) == x.disk && !x.dirty && x.head == x.start == pos
            && x.size == Max(w.size, pos)
            && x.end == Max(pos, Min(pos + CACHE_SIZE, Min(x.size, |x.disk|)))
  {
    hide Agrees, PWrite, PRead, Filled, Overlay;
    var x := if w.dirty then Flushed(w) else w;
    if w.dirty { FlushedContent(w); }
    if pos <= x.size {
      FilledLoaded(x, pos, if pos + CACHE_SIZE > x.size then x.size - pos else CACHE_SIZE);
    } else {
      NothingLoaded(x.buf, x.disk, pos);
    }
  }

  lemma NothingLoaded(buf: seq<Byte>, f: seq<Byte>, start: nat)
    ensures Agrees(buf, f, start, 0, 0)
  {
  }

  // ----- reading and writing inside the window

  /** Moving the head over loaded bytes. */
  lemma ReadOn(w: Window, n: nat)
    requires Valid(w) && Loaded(w) && w.head + n <= w.end
    ensures var x := w.(head := w.head + n);
            Valid(x) && Loaded(x) && Content(x) == Content(w) && (Full(w) ==> Full(x))
    ensures n > 0 ==> w.head + n <= |Content(w)|
                      && w.buf[w.head - w.start..w.head - w.start + n] == Content(w)[w.head..w.head + n]
  {
    hide Agrees, PWrite;
    var h, e, f := w.head - w.start, w.end - w.start, Content(w);
    AgreeSub(w.buf, f, w.start, h, e, h, h + n);
    AgreeSub(w.buf, f, w.start, h, e, h + n, e);
    AgreeJoin(w.buf, f, w.start, 0, h, h + n);
    if w.dirty { TakeAgreed(w.disk, w.buf, w.start, h, n); }
    AgreeSlice(w.buf, f, w.start, h, h + n);
  }

  /** Writing `data` into the window at the head. */
  function Written(w: Window, data: seq<Byte>): Window
    requires Placed(w) && w.head + |data| <= w.start + CACHE_SIZE
  {
    w.(buf := Overlay(w.buf, w.head - w.start, data), head := w.head + |data|, dirty := true)
  }

  lemma WrittenContent(w: Window, data: seq<Byte>)
    requires Half(w) && w.head + |data| <= w.start + CACHE_SIZE
    ensures var x := Written(w, data);
            Half(x) && Content(x) == PWrite(Content(w), data, w.head)
  {
    hide PWrite, Overlay, Agrees, Content;
    var x := Written(w, data);
    var h := w.head - w.start;
    OverlayPrefix(w.buf, h, data);
    WriteWrite(w.disk, w.buf[..h], data, w.start);
    AsWritten(w);
    DirtyContent(x);
    WriteThenAgrees(w.disk, x.buf, w.start, h + |data|);
  }

  lemma DirtyContent(w: Window)
    requires Placed(w) && w.dirty
    ensures Content(w) == PWrite(w.disk, w.buf[..w.head - w.start], w.start)
  {
  }

  lemma AsWritten(w: Window)
    requires Half(w)
    ensures Content(w) == PWrite(w.disk, w.buf[..w.head - w.start], w.start)
  {
    FlushedContent(w);
  }

  lemma OverlayPrefix(buf: seq<Byte>, at: nat, data: seq<Byte>)
    requires at + |data| <= |buf|
    ensures Overlay(buf, at, data)[..at + |data|] == buf[..at] + data
  {
  }

  /** After a write of its first `n` bytes the buffer agrees with the file. */
  lemma WriteThenAgrees(disk: seq<Byte>, buf: seq<Byte>, start: nat, n: nat)
    requires n <= |buf|
    ensures Agrees(buf, PWrite(disk, buf[..n], start), start, 0, n)
  {
    var f := PWrite(disk, buf[..n], start);
    forall i: nat | i < n ensures buf[i] == f[start + i] {
      assert buf[..n][i] == buf[i];
    }
  }

  /** A write that stays inside a loaded window leaves the rest of it loaded. */
  lemma WrittenLoaded(w: Window, data: seq<Byte>)
    requires Half(w) && Loaded(w) && w.head + |data| <= w.end
    ensures var x := Written(w, data); Placed(x) && Loaded(x) && |Content(x)| == |Content(w)|
  {
    hide Agrees, PWrite, Content, Overlay;
    WrittenContent(w, data);
    OverlayAgrees(w.buf, Content(w), w.start, w.head - w.start, w.end - w.start, data);
  }

  lemma OverlayAgrees(buf: seq<Byte>, f: seq<Byte>, start: nat, at: nat, to: nat, data: seq<Byte>)
    requires Agrees(buf, f, start, at, to) && at + |data| <= to
    ensures Agrees(Overlay(buf, at, data), PWrite(f, data, start + at), start, at + |data|, to)
    ensures |PWrite(f, data, start + at)| == |f|
  {
    var b, g := Overlay(buf, at, data), PWrite(f, data, start + at);
    forall i: nat | at + |data| <= i < to ensures b[i] == g[start + i] {
      assert b[i] == buf[i];
    }
  }

  // ----- When calls are right

  /** The next `k` bytes of the window are the file's. */
  predicate Readable(w: Window, k: nat)
    requires Placed(w)
  {
    Agrees(w.buf, Content(w), w.start, w.head - w.start, w.head + k - w.start)
  }

  /** Reading `n` bytes is right: past the recorded size there is nothing in the file either, or else what the window
      has from the head on, as far as it is read, is the file's. */
  predicate RightRead(w: Window, n: nat)
    requires Placed(w) && w.head <= w.end
  {
    n == 0 || if w.head > w.size then w.head >= |Content(w)| else Readable(w, Min(n, w.end - w.head))
  }

  /** The same as a condition on positions and sizes, for the states that calls without a flush reach. */
  predicate CanRead(w: Window, n: nat)
    requires Placed(w)
  {
    n == 0 || if w.head > w.size then w.head >= |Content(w)|
              else w.head == w.end || Min(w.head + n, w.end) <= |Content(w)|
  }

  /** The state kept by calls that never grow the file: everything loaded, nothing cut short. */
  predicate Settled(w: Window)
    requires Placed(w)
  {
    Full(w) && |Content(w)| == |w.disk| <= w.size && w.head <= w.size
  }

  /** Where the `k`-th window after this one begins. */
  function Edge(start: nat, k: nat): nat {
    start + k * CACHE_SIZE
  }

  /** The file has not grown, and its size is recorded. */
  predicate Resting(w: Window)
    requires Placed(w)
  {
    |Content(w)| == |w.disk| <= w.size
  }

  /** Writing `n` bytes is right: where the write leaves this window inside the recorded size the window is
      loaded to its end, and where it leaves a later one inside the recorded size the file reaches that far. */
  ghost predicate CanWrite(w: Window, n: nat)
    requires Placed(w)
  {
    && (w.start + CACHE_SIZE < w.head + n && w.start + CACHE_SIZE < w.size ==> w.end == w.start + CACHE_SIZE)
    && forall k: nat :: k >= 2 && Edge(w.start, k) < w.head + n && Edge(w.start, k) < w.size ==>
         Edge(w.start, k) <= |Content(w)|
  }

  /** `io300_writec` before it stores: room for one byte. */
  function Roomy(w: Window): Window
    requires Placed(w)
  {
    if w.head == w.end then if w.head < |w.disk| then Fetched(w) else Flushed(w) else w
  }

  lemma ContentReaches(w: Window)
    requires Half(w)
    ensures w.head > w.start ==> w.head <= |Content(w)|
    ensures |Content(w)| >= |w.disk|
  {
  }

  lemma FlushedGrowing(w: Window)
    requires Half(w) && w.head <= w.end && Growing(w) && w.end <= w.head
    ensures Placed(Flushed(w)) && Growing(Flushed(w))
  {
    FlushedContent(w);
    ContentReaches(w);
  }

  lemma RoomyIs(w: Window)
    requires Valid(w)
    ensures var x := Roomy(w);
            && Half(x) && x.head == w.head < x.end && x.size == w.size && Content(x) == Content(w)
            && (Growing(w) ==> Growing(x))
            && (Settled(w) && w.head < |w.disk| ==> Settled(x) && |x.disk| == |w.disk|)
  {
    if w.head == w.end {
      ContentReaches(w);
      FlushedContent(w);
      if w.head < |w.disk| {
        FetchedLoaded(w);
      } else if Growing(w) {
        FlushedGrowing(w);
      }
    }
  }

  lemma WrittenKeeps(w: Window, data: seq<Byte>)
    requires Half(w) && w.head + |data| <= w.start + CACHE_SIZE
    ensures var x := Written(w, data);
            && Placed(x) && (Growing(w) ==> Growing(x))
            && (Settled(w) && w.head + |data| <= |w.disk| ==> Settled(x) && x.disk == w.disk && x.head <= x.end)
  {
    if Settled(w) && w.head + |data| <= |w.disk| {
      WrittenLoaded(w, data);
    }
  }

  /** `io300_readc`. */
  function GetC(w: Window): (Window, int)
    requires Placed(w)
  {
    var none: int := -1;
    if w.head > w.size then (w, none) else
    var x := Refilled(w);
    if x.head == x.end || x.head < x.start || x.head >= x.start + |x.buf| then (x, none) else
    var c: int := x.buf[x.head - x.start];
    (x.(head := x.head + 1), c)
  }

  /** Before a read: fetch if the window is used up. */
  function Refilled(w: Window): Window
    requires Placed(w)
  {
    if w.head == w.end then Fetched(w) else w
  }

  /** `io300_writec`. */
  function PutC(w: Window, ch: int): Window
    requires Valid(w)
  {
    RoomyIs(w);
    Written(Roomy(w), [ToByte(ch)])
  }

  lemma PutCIs(w: Window, ch: int)
    requires Valid(w)
    ensures var x := PutC(w, ch);
            && Valid(x) && x.size == w.size
            && (File(Content(x), x.head), Wrote(ch)) == Naive(File(Content(w), w.head), WriteC(ch))
            && (Growing(w) ==> Growing(x))
            && (Settled(w) && w.head < |w.disk| ==> Settled(x) && |x.disk| == |w.disk|)
  {
    RoomyIs(w);
    hide Agrees, PWrite, Roomy;
    WrittenContent(Roomy(w), [ToByte(ch)]);
    WrittenKeeps(Roomy(w), [ToByte(ch)]);
  }

  // ----- io300_read and io300_write, one pass of their loops

  lemma ReadMore(f: seq<Byte>, at: nat, got: nat, k: nat)
    requires at + got + k <= |f|
    ensures PRead(f, got + k, at) == PRead(f, got, at) + f[at + got..at + got + k]
  {
  }

  lemma ReadEnds(f: seq<Byte>, at: nat, got: nat, n: nat)
    requires got <= n && |PRead(f, got, at)| == got && (got == n || at + got >= |f|)
    ensures PRead(f, n, at) == PRead(f, got, at)
  {
  }

  /** The write loop at the end of its window: fetch the next one, or flush and start afresh. */
  function Slid(w: Window): Window
    requires Placed(w)
  {
    if w.head < w.start + CACHE_SIZE then w
    else if w.head < w.size then Fetched(w)
    else Flushed(w.(end := w.start + CACHE_SIZE))
  }

  /** If the write loop fetches next, `io300_fetch` finds the head inside the window. */
  predicate NextCheck(w: Window) {
    w.head == w.start + CACHE_SIZE && w.head < w.size ==> w.head <= w.end
  }

  lemma SlidIs(w: Window, n: nat)
    requires Half(w) && n > 0 && NextCheck(w)
    ensures var x := Slid(w);
            && Half(x) && x.head == w.head < x.start + CACHE_SIZE && x.size == w.size
            && Content(x) == Content(w)
            && (Growing(w) ==> Growing(x))
            && (Settled(w) && w.head + n <= |w.disk| ==> Settled(x) && |x.disk| == |w.disk|)
    ensures w.head < w.start + CACHE_SIZE ==> Slid(w) == w
    ensures w.head == w.start + CACHE_SIZE && w.head >= w.size ==> Slid(w).start == w.head
    ensures w.head == w.start + CACHE_SIZE && w.head < w.size ==>
              Slid(w).start == w.head && Slid(w).end == Max(w.head, Min(w.head + CACHE_SIZE, |Content(w)|))
  {
    hide Agrees, PWrite, Fetched;
    if w.head == w.start + CACHE_SIZE {
      ContentReaches(w);
      if w.head < w.size {
        FetchedLoaded(w);
      } else {
        FlushedContent(w.(end := w.start + CACHE_SIZE));
        NothingLoaded(w.buf, Content(w), w.head);
      }
    }
  }

  lemma Edges(start: nat)
    ensures Edge(start, 1) == start + CACHE_SIZE && Edge(start, 2) == start + CACHE_SIZE + CACHE_SIZE
    ensures forall k: nat :: k >= 2 ==> Edge(start, k) >= start + CACHE_SIZE + CACHE_SIZE
  {
    forall k: nat ensures k >= 2 ==> Edge(start, k) >= start + CACHE_SIZE + CACHE_SIZE {
      if k >= 2 {
        assert k * CACHE_SIZE == (k - 2) * CACHE_SIZE + CACHE_SIZE + CACHE_SIZE;
      }
    }
  }

  lemma EdgesShift(start: nat, next: nat)
    requires next == start + CACHE_SIZE
    ensures forall k: nat :: Edge(next, k) == Edge(start, k + 1)
  {
    forall k: nat ensures Edge(next, k) == Edge(start, k + 1) {
      assert (k + 1) * CACHE_SIZE == k * CACHE_SIZE + CACHE_SIZE;
    }
  }

  lemma CanWriteChecks(w: Window, n: nat)
    requires Placed(w) && n > 0 && CanWrite(w, n)
    ensures NextCheck(w)
  {
  }

  /** Sliding the window changes nothing about the rest of the write. */
  lemma CanWriteSlid(w: Window, n: nat)
    requires Half(w) && n > 0 && NextCheck(w)
    ensures Placed(Slid(w)) && (CanWrite(Slid(w), n) <==> CanWrite(w, n))
  {
    hide Slid, Edge, Content, Agrees;
    SlidIs(w, n);
    var x := Slid(w);
    Edges(w.start);
    Edges(x.start);
    if w.head == w.start + CACHE_SIZE && w.head < w.size {
      EdgesShift(w.start, x.start);
      SlidSame(w, x, n);
    }
  }

  lemma SlidSame(w: Window, x: Window, n: nat)
    requires Placed(w) && Placed(x) && w.head == w.start + CACHE_SIZE == w.end == x.head == x.start && x.size == w.size
    requires Content(x) == Content(w) && x.end == Max(w.head, Min(w.head + CACHE_SIZE, |Content(w)|))
    requires forall k: nat :: Edge(x.start, k) == Edge(w.start, k + 1)
    requires Edge(w.start, 2) == x.start + CACHE_SIZE
    ensures CanWrite(x, n) <==> CanWrite(w, n)
  {
    hide Content, Edge;
    if CanWrite(w, n) {
      forall k: nat | k >= 2 && Edge(x.start, k) < x.head + n && Edge(x.start, k) < x.size
        ensures Edge(x.start, k) <= |Content(x)|
      {
        assert Edge(w.start, k + 1) == Edge(x.start, k);
      }
    }
    if CanWrite(x, n) {
      forall k: nat | k >= 2 && Edge(w.start, k) < w.head + n && Edge(w.start, k) < w.size
        ensures Edge(w.start, k) <= |Content(w)|
      {
        assert Edge(x.start, k - 1) == Edge(w.start, k - 1 + 1);
      }
    }
  }

  /** Nor does writing a chunk of it. */
  lemma CanWriteChunk(w: Window, chunk: seq<Byte>, n: nat)
    requires Half(w) && |chunk| <= n && w.head + |chunk| <= w.start + CACHE_SIZE
    ensures Placed(Written(w, chunk)) && (CanWrite(Written(w, chunk), n - |chunk|) <==> CanWrite(w, n))
  {
    hide Content, Edge, Agrees, Overlay;
    WrittenContent(w, chunk);
    Edges(w.start);
  }

  /** One pass of the write loop. */
  lemma WriteChunk(w: Window, data: seq<Byte>, pos: nat, k: nat)
    requires pos + k <= |data| && Half(w) && w.head + k <= w.start + CACHE_SIZE
    ensures var x := Written(w, data[pos..pos + k]);
            && Half(x) && (CanWrite(x, |data| - pos - k) <==> CanWrite(w, |data| - pos))
            && (Growing(w) ==> Growing(x))
            && (Settled(w) && w.head + (|data| - pos) <= |w.disk| ==> Settled(x) && x.disk == w.disk && x.head <= x.end)
    ensures forall f: seq<Byte>, at: nat :: Content(w) == PWrite(f, data[..pos], at) && w.head == at + pos ==>
              Content(Written(w, data[pos..pos + k])) == PWrite(f, data[..pos + k], at)
  {
    hide Agrees, PWrite, Content, Overlay, CanWrite;
    WrittenContent(w, data[pos..pos + k]);
    WrittenKeeps(w, data[pos..pos + k]);
    CanWriteChunk(w, data[pos..pos + k], |data| - pos);
    assert data[..pos] + data[pos..pos + k] == data[..pos + k];
    forall f: seq<Byte>, at: nat | Content(w) == PWrite(f, data[..pos], at) && w.head == at + pos
      ensures Content(Written(w, data[pos..pos + k])) == PWrite(f, data[..pos + k], at)
    {
      WriteWrite(f, data[..pos], data[pos..pos + k], at);
    }
  }

  /** The write loop's assertions hold all the way. */
  ghost predicate Passes(w: Window, data: seq<Byte>)
    requires Half(w)
    decreases |data|
  {
    data != [] ==>
      && NextCheck(w)
      && (SlidIs(w, |data|);
          var x := Slid(w);
          var k := Min(|data|, CACHE_SIZE - (x.head - x.start));
          WrittenContent(x, data[..k]);
          Passes(Written(x, data[..k]), data[k..]))
  }

  /** They do exactly when the write is right. */
  lemma {:induction false} PassesIff(w: Window, data: seq<Byte>)
    requires Half(w)
    ensures Passes(w, data) <==> CanWrite(w, |data|)
    decreases |data|
  {
    hide Agrees, Content, Overlay, CanWrite, Slid, Written;
    if data == [] {
      NothingToWrite(w);
    } else if NextCheck(w) {
      SlidIs(w, |data|);
      CanWriteSlid(w, |data|);
      var x := Slid(w);
      var k := Min(|data|, CACHE_SIZE - (x.head - x.start));
      WrittenContent(x, data[..k]);
      CanWriteChunk(x, data[..k], |data|);
      PassesIff(Written(x, data[..k]), data[k..]);
    } else {
      CanWriteFails(w, |data|);
    }
  }

  lemma NothingToWrite(w: Window)
    requires Placed(w)
    ensures CanWrite(w, 0)
  {
    Edges(w.start);
  }

  lemma CanWriteFails(w: Window, n: nat)
    requires Placed(w) && n > 0 && !NextCheck(w)
    ensures !CanWrite(w, n)
  {
  }

  /** Any write is right if it stays in the window, if the recorded size is not beyond the disk, or if it stays
      inside a settled file. */
  lemma CanWriteWhen(w: Window, n: nat)
    requires Half(w)
    ensures w.head + n <= w.start + CACHE_SIZE || Growing(w) || (Settled(w) && w.head + n <= |w.disk|) ==>
            CanWrite(w, n)
  {
    hide Agrees, Edge;
    ContentReaches(w);
    Edges(w.start);
  }

  /** The write loop's last statement. */
  function Closed(w: Window): Window
    requires Placed(w)
  {
    if w.end < w.head then w.(end := w.start + CACHE_SIZE) else w
  }

  lemma ClosedIs(w: Window)
    requires Half(w)
    ensures Valid(Closed(w)) && Content(Closed(w)) == Content(w)
    ensures Growing(w) ==> Growing(Closed(w))
    ensures w.head <= w.end ==> Closed(w) == w
  {
  }

  lemma WriteNothing(f: seq<Byte>, data: seq<Byte>, at: nat)
    ensures PWrite(f, data[..0], at) == f
  {
  }

  lemma SoughtKeeps(w: Window, pos: nat)
    requires Valid(w)
    ensures var x := Sought(w, pos);
            && Placed(x) && (Resting(w) ==> Settled(x) && |x.disk| == |w.disk|)
            && (Growing(w) && pos <= |Content(w)| ==> Growing(x))
            && (pos >= |Content(w)| ==> x.head == x.end)
  {
    SoughtLoaded(w, pos);
    ContentReaches(w);
  }

  /** An explicit flush of a window that is used up keeps the file and what the recorded size says of it. */
  lemma FlushKeeps(w: Window)
    requires Valid(w) && w.head == w.end
    ensures var x := Flushed(w);
            && Valid(x) && Content(x) == Content(w) && x.head == w.head
            && (Growing(w) ==> Growing(x)) && (Resting(w) ==> Resting(x))
  {
    FlushedContent(w);
    if Growing(w) { FlushedGrowing(w); }
  }

  // ----- Whole calls

  /** The call is right in this state. */
  ghost predicate Right(w: Window, op: Op)
    requires Placed(w) && w.head <= w.end
  {
    match op
    case Seek(_) => true
    case ReadC => RightRead(w, 1)
    case Read(n) => RightRead(w, n)
    case WriteC(_) => true
    case Write(data) => CanWrite(w, |data|)
    case Flush => w.head == w.end
  }

  /** The call does not grow the file. */
  predicate Inside(f: File, op: Op) {
    match op
    case WriteC(_) => f.pos < |f.content|
    case Write(data) => f.pos + |data| <= |f.content|
    case _ => true
  }

  /** A write, a flush, or a seek that stays within the file. */
  predicate Appending(f: File, op: Op) {
    op.WriteC? || op.Write? || op.Flush? || (op.Seek? && op.pos <= |f.content|)
  }

  /** The call meets the end of the file: a seek there or beyond, or a read that returns less than was asked for. */
  predicate MeetsEnd(f: File, op: Op) {
    match op
    case Seek(pos) => pos >= |f.content|
    case ReadC => f.pos >= |f.content|
    case Read(n) => |PRead(f.content, n, f.pos)| < n
    case _ => false
  }

  /** What a call keeps for the next one. */
  predicate Kept(w: Window, op: Op, x: Window)
    requires Placed(w) && Placed(x)
  {
    && (Settled(w) && Inside(File(Content(w), w.head), op) && !op.Flush? ==> Settled(x))
    && (Resting(w) && op.Seek? ==> Settled(x))
    && (Resting(w) && op.Flush? ==> Resting(x))
    && (Growing(w) && Appending(File(Content(w), w.head), op) ==> Growing(x))
    && (op.Seek? ==> Loaded(x) && x.head == x.start == op.pos <= x.size)
    && (MeetsEnd(File(Content(w), w.head), op) && (op.Seek? || w.head <= w.size) ==> x.head == x.end)
  }
}
