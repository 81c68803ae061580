/** What every sequence of calls keeps, disciplined or not, and when reading is right in such a state. */
module CacheReach {
  import opened OsFile
  import opened CacheWindow

  /** What the window has of the file from the head on is right. */
  predicate Tail(w: Window)
    requires Placed(w)
  {
    Agrees(w.buf, Content(w), w.start, w.head - w.start, Max(w.head, Min(w.end, |Content(w)|)) - w.start)
  }

  /** The states that calls reach: a clean window is loaded; the window reaches as far as the recorded size and the
      disk allow; and within the recorded size it has no wrong byte of the file. */
  predicate Reached(w: Window)
    requires Placed(w)
  {
    && (w.dirty || Loaded(w))
    && w.end >= Min(w.start + CACHE_SIZE, Min(w.size, |w.disk|))
    && (w.head <= w.size ==> Tail(w))
  }

  lemma LoadedTail(w: Window)
    requires Placed(w) && Loaded(w)
    ensures Tail(w) && (w.head < w.end ==> w.end <= |Content(w)|)
  {
  }

  lemma SoughtReached(w: Window, pos: nat)
    requires Valid(w)
    ensures Placed(Sought(w, pos)) && Reached(Sought(w, pos))
  {
    hide Sought, Agrees, Content;
    SoughtLoaded(w, pos);
    LoadedTail(Sought(w, pos));
  }

  lemma FetchedReached(w: Window)
    requires Half(w) && (!w.dirty ==> w.head == w.end)
    ensures Placed(Fetched(w)) && Reached(Fetched(w))
  {
    hide Fetched, Agrees, Content;
    FetchedLoaded(w);
    LoadedTail(Fetched(w));
  }

  // ----- Reading

  /** Moving the head over bytes of a dirty window makes them part of the file. */
  lemma SkimWrites(w: Window, k: nat)
    requires Placed(w) && w.dirty && w.head + k <= w.end
    ensures var x := w.(head := w.head + k); var h := w.head - w.start;
            Placed(x) && Content(x) == PWrite(Content(w), w.buf[h..h + k], w.head) && Half(x)
  {
    hide PWrite, Agrees, Content, Half;
    var h := w.head - w.start;
    DirtyMore(w, h, k);
    WriteMore(w.disk, w.buf, w.start, h, k, w.head);
  }

  lemma DirtyMore(w: Window, h: nat, k: nat)
    requires Placed(w) && w.dirty && w.head + k <= w.end && h == w.head - w.start
    ensures h + k <= |w.buf| && Content(w) == PWrite(w.disk, w.buf[..h], w.start)
    ensures var x := w.(head := w.head + k);
            Half(x) && Placed(x) && Content(x) == PWrite(w.disk, w.buf[..h + k], w.start)
  {
    hide PWrite, Agrees;
    WriteThenAgrees(w.disk, w.buf, w.start, h + k);
  }

  lemma WriteMore(disk: seq<Byte>, buf: seq<Byte>, start: nat, h: nat, k: nat, at: nat)
    requires h + k <= |buf| && at == start + h
    ensures PWrite(disk, buf[..h + k], start) == PWrite(PWrite(disk, buf[..h], start), buf[h..h + k], at)
  {
    hide PWrite;
    assert buf[..h + k] == buf[..h] + buf[h..h + k];
    WriteWrite(disk, buf[..h], buf[h..h + k], start);
  }

  /** Bytes that are the file's leave the contents alone. */
  lemma SkimReads(w: Window, k: nat)
    requires Valid(w) && Readable(w, k) && w.head + k <= w.end
    ensures var x := w.(head := w.head + k); Half(x) && Content(x) == Content(w)
    ensures k > 0 ==> w.head + k <= |Content(w)|
                      && w.buf[w.head - w.start..w.head - w.start + k] == Content(w)[w.head..w.head + k]
  {
    hide PWrite, Agrees;
    var h, f := w.head - w.start, Content(w);
    AgreeJoin(w.buf, f, w.start, 0, h, h + k);
    if w.dirty { TakeAgreed(w.disk, w.buf, w.start, h, k); }
    AgreeSlice(w.buf, f, w.start, h, h + k);
  }

  /** The tail after the head has moved over `k` bytes of the file. */
  lemma TailOn(w: Window, k: nat)
    requires Valid(w) && Tail(w) && w.head + k <= w.end && w.head + k <= |Content(w)|
    ensures Readable(w, k)
    ensures var x := w.(head := w.head + k); Content(x) == Content(w) ==> Tail(x)
  {
    hide Agrees, Content;
    var h, f := w.head - w.start, Content(w);
    var to := Max(w.head, Min(w.end, |f|)) - w.start;
    AgreeSub(w.buf, f, w.start, h, to, h, h + k);
    AgreeSub(w.buf, f, w.start, h, to, h + k, to);
  }

  /** Reading on in the window, over whatever it has, keeps what calls keep. */
  lemma Skim(w: Window, k: nat)
    requires Valid(w) && Reached(w) && w.head + k <= w.end
    ensures var x := w.(head := w.head + k); Valid(x) && Reached(x)
  {
    hide Agrees, PWrite, Content, Loaded, Tail;
    if !w.dirty {
      SkimLoaded(w, k);
    } else {
      SkimWrites(w, k);
      if w.head + k <= w.size {
        if w.head + k <= |Content(w)| {
          TailOn(w, k);
          SkimReads(w, k);
        } else {
          SkimPast(w, k);
        }
      }
    }
  }

  lemma SkimLoaded(w: Window, k: nat)
    requires Valid(w) && Loaded(w) && w.head + k <= w.end
    ensures var x := w.(head := w.head + k); Valid(x) && Loaded(x) && Tail(x) && Readable(w, k)
  {
    hide Content, PWrite, Tail;
    ReadOn(w, k);
    LoadedTail(w.(head := w.head + k));
    AgreeSub(w.buf, Content(w), w.start, w.head - w.start, w.end - w.start, w.head - w.start, w.head + k - w.start);
  }

  /** Past the end of the file the bytes read become its last ones. */
  lemma SkimPast(w: Window, k: nat)
    requires Placed(w) && w.dirty && w.head + k <= w.end && w.head + k > |Content(w)|
    ensures Tail(w.(head := w.head + k)) && |Content(w.(head := w.head + k))| <= w.head + k
  {
    hide Agrees;
    SkimWrites(w, k);
    assert |Content(w)| >= |w.disk|;
    NothingAgreed(w.buf, Content(w.(head := w.head + k)), w.start, w.head + k - w.start);
  }

  lemma NothingAgreed(buf: seq<Byte>, f: seq<Byte>, start: nat, at: nat)
    requires at <= |buf|
    ensures Agrees(buf, f, start, at, at)
  {
  }

  lemma RefilledReached(w: Window)
    requires Valid(w) && Reached(w)
    ensures var x := Refilled(w);
            && Valid(x) && Reached(x) && Content(x) == Content(w) && x.size == w.size && x.head == w.head
            && (x.head == x.end ==> w.head >= |Content(w)|)
            && (w.head == w.end ==> Loaded(x)) && (w.head < w.end ==> x == w)
            && (Settled(w) ==> Settled(x) && |x.disk| == |w.disk|)
  {
    hide Agrees, PWrite, Tail;
    if w.head == w.end {
      FetchedLoaded(w);
      FetchedReached(w);
    }
  }

  /** Reading one byte of a file. */
  lemma NaiveReadC(f: seq<Byte>, pos: nat)
    ensures pos < |f| ==> Naive(File(f, pos), ReadC) == (File(f, pos + 1), Char(f[pos]))
    ensures pos >= |f| ==> Naive(File(f, pos), ReadC) == (File(f, pos), Char(-1))
  {
  }

  /** What `io300_readc` keeps in every state that calls reach. */
  lemma GetCReached(w: Window)
    requires Valid(w) && Reached(w)
    ensures var x := GetC(w).0; Valid(x) && Reached(x) && x.size == w.size
    ensures Settled(w) ==> Settled(GetC(w).0) && |GetC(w).0.disk| == |w.disk|
  {
    hide Agrees, PWrite, Content, Refilled, Tail, Loaded;
    if w.head <= w.size {
      RefilledReached(w);
      var x := Refilled(w);
      if x.head < x.end {
        Skim(x, 1);
        if Settled(x) { SettledReads(x, 1); }
      }
    }
  }

  /** `io300_readc` leaves a settled file settled. */
  lemma GetCSettled(w: Window)
    requires Valid(w)
    ensures Settled(w) ==> Placed(GetC(w).0) && Settled(GetC(w).0)
  {
    hide Agrees, PWrite, Content, Refilled, Loaded;
    if w.head <= w.size {
      RefilledValid(w);
      var x := Refilled(w);
      if x.head < x.end && Settled(x) { SettledReads(x, 1); }
    }
  }

  lemma SettledReads(w: Window, k: nat)
    requires Valid(w) && Settled(w) && w.head + k <= w.end
    ensures Settled(w.(head := w.head + k)) && Placed(w.(head := w.head + k))
  {
    hide Agrees, PWrite, Content;
    ReadOn(w, k);
    LoadedTail(w);
  }

  /** In every valid state, flushed or not, `io300_readc` is the uncached call, in its answer and in the file it
      leaves, exactly when reading one byte is right, and then the state stays valid. */
  lemma ReadCExact(w: Window)
    requires Valid(w)
    ensures var (x, c) := GetC(w);
            && Placed(x)
            && ((File(Content(x), x.head), Char(c)) == Naive(File(Content(w), w.head), ReadC) <==> RightRead(w, 1))
            && (Char(c) == Naive(File(Content(w), w.head), ReadC).1 <==> RightRead(w, 1))
            && (RightRead(w, 1) ==> Valid(x)) && x.size == w.size
            && (w.head >= |Content(w)| && w.head <= w.size && RightRead(w, 1) ==> x.head == x.end)
  {
    hide Agrees, PWrite, Content, Refilled, Tail, Naive, Loaded;
    NaiveReadC(Content(w), w.head);
    if w.head <= w.size {
      RefilledValid(w);
      var x := Refilled(w);
      if x.head < x.end {
        ReadableByte(x);
        if Readable(x, 1) { SkimReads(x, 1); }
        if w.head == w.end {
          SkimLoaded(x, 1);
          NothingReadable(w);
        }
      } else {
        NothingReadable(w);
      }
    }
  }

  /** One byte of the window is the file's. */
  lemma ReadableByte(w: Window)
    requires Placed(w) && w.head < w.end
    ensures Readable(w, 1) <==> w.head < |Content(w)| && w.buf[w.head - w.start] == Content(w)[w.head]
  {
  }

  /** Refilling in any valid state. */
  lemma RefilledValid(w: Window)
    requires Valid(w)
    ensures var x := Refilled(w);
            && Valid(x) && Content(x) == Content(w) && x.size == w.size && x.head == w.head
            && (x.head == x.end ==> w.head == w.end && w.head >= |Content(w)|)
            && (w.head == w.end ==> Loaded(x)) && (w.head < w.end ==> x == w)
            && (Settled(w) ==> Settled(x) && |x.disk| == |w.disk|)
  {
    hide Agrees, PWrite;
    if w.head == w.end {
      FetchedLoaded(w);
    }
  }

  /** In the states that calls without a flush reach, the condition is one on positions and sizes. */
  lemma RightReadIff(w: Window, n: nat)
    requires Valid(w) && Reached(w)
    ensures RightRead(w, n) <==> CanRead(w, n)
  {
    hide Agrees, PWrite, Content, Tail, Loaded;
    if n > 0 && w.head <= w.size {
      var k := Min(n, w.end - w.head);
      if k == 0 {
        NothingReadable(w);
      } else if w.head + k <= |Content(w)| {
        TailOn(w, k);
      } else if Readable(w, k) {
        SkimReads(w, k);
      }
    }
  }

  /** In every state that calls without a flush reach, `io300_readc` is the uncached call exactly when the head is at
      the end of the file with the window used up or past the recorded size, or inside the file and within the
      recorded size. */
  lemma ReadCRightIff(w: Window)
    requires Valid(w) && Reached(w)
    ensures var (x, c) := GetC(w);
            && Placed(x)
            && ((File(Content(x), x.head), Char(c)) == Naive(File(Content(w), w.head), ReadC) <==> CanRead(w, 1))
            && (Char(c) == Naive(File(Content(w), w.head), ReadC).1 <==> CanRead(w, 1))
  {
    ReadCExact(w);
    hide GetC, Naive, RightRead, CanRead, Content;
    RightReadIff(w, 1);
  }

  /** Where the window claims more than the file has, `io300_readc` returns a byte that is not in the file and makes
      it part of the file; the uncached call reports the end of the file. */
  lemma StaleByte(w: Window)
    requires Valid(w) && Reached(w) && |Content(w)| <= w.head <= w.size && w.head < w.end
    ensures var (x, c) := GetC(w); var b := w.buf[w.head - w.start];
            && c == b >= 0 && x == w.(head := w.head + 1)
            && Placed(x) && Content(x) == PWrite(Content(w), [b], w.head)
            && Naive(File(Content(w), w.head), ReadC).1 == Char(-1)
  {
    hide Agrees, PWrite, Content, Tail;
    LoadedOrDirty(w);
    SkimWrites(w, 1);
    var h := w.head - w.start;
    assert w.buf[h..h + 1] == [w.buf[h]];
    NaiveReadC(Content(w), w.head);
  }

  lemma LoadedOrDirty(w: Window)
    requires Placed(w) && Reached(w) && |Content(w)| <= w.head < w.end
    ensures w.dirty
  {
    hide Content;
    if Loaded(w) { LoadedTail(w); }
  }

  // ----- Writing

  /** Reached, for a window in the middle of a write. */
  lemma WrittenReached(w: Window, data: seq<Byte>)
    requires Half(w) && w.head + |data| <= w.start + CACHE_SIZE && data != []
    requires w.end >= Min(w.start + CACHE_SIZE, Min(w.size, |w.disk|))
    requires w.head + |data| <= w.size ==> Tail(w)
    ensures Placed(Written(w, data)) && Reached(Written(w, data))
  {
    hide Agrees, PWrite, Content, Overlay;
    WrittenContent(w, data);
    if w.head + |data| <= w.size { WrittenTail(w, data); }
  }

  lemma WrittenTail(w: Window, data: seq<Byte>)
    requires Half(w) && w.head + |data| <= w.start + CACHE_SIZE && Tail(w)
    ensures Placed(Written(w, data)) && Tail(Written(w, data))
  {
    hide Agrees, PWrite, Content, Overlay;
    WrittenContent(w, data);
    var x := Written(w, data);
    var h, to := w.head - w.start, Max(w.head, Min(w.end, |Content(w)|)) - w.start;
    if h + |data| <= to {
      OverlayAgrees(w.buf, Content(w), w.start, h, to, data);
    } else {
      WrittenLength(Content(w), data, w.head);
      NothingAgreed(x.buf, Content(x), x.start, x.head - x.start);
    }
  }

  lemma WrittenLength(f: seq<Byte>, data: seq<Byte>, at: nat)
    ensures |PWrite(f, data, at)| <= Max(|f|, at + |data|)
  {
  }

  lemma ClosedReached(w: Window)
    requires Half(w) && Reached(w) && (w.dirty || w.head <= w.end)
    ensures Placed(Closed(w)) && Reached(Closed(w))
  {
    hide Agrees;
    if w.end < w.head && w.head <= w.size {
      assert |w.disk| < w.head;
      assert |Content(w)| <= w.head;
      NothingAgreed(w.buf, Content(w), w.start, w.head - w.start);
    }
  }

  lemma PutCReached(w: Window, ch: int)
    requires Valid(w) && Reached(w)
    ensures Placed(PutC(w, ch)) && Reached(PutC(w, ch))
  {
    hide Agrees, PWrite, Tail;
    RoomyIs(w);
    RoomyReached(w);
    hide Roomy;
    WrittenReached(Roomy(w), [ToByte(ch)]);
  }

  lemma RoomyReached(w: Window)
    requires Valid(w) && Reached(w)
    ensures var x := Roomy(w);
            && Placed(x) && x.end >= Min(x.start + CACHE_SIZE, Min(x.size, |x.disk|)) && (x.head <= x.size ==> Tail(x))
  {
    hide Agrees;
    if w.head == w.end {
      if w.head < |w.disk| {
        FetchedReached(w);
      } else {
        FlushedContent(w);
        assert |Content(w)| <= w.head;
        NothingAgreed(w.buf, Flushed(w).disk, w.head, 0);
      }
    }
  }

  /** Sliding and writing, one pass of the write loop. */
  lemma SlidReached(w: Window, n: nat)
    requires Half(w) && Reached(w) && n > 0 && NextCheck(w)
    ensures var x := Slid(w);
            && Placed(x) && x.end >= Min(x.start + CACHE_SIZE, Min(x.size, |x.disk|))
            && (x.head < x.size ==> Tail(x))
  {
    hide Agrees, PWrite, Tail;
    SlidIs(w, n);
    if w.head == w.start + CACHE_SIZE && w.head < w.size {
      FetchedReached(w);
    }
  }

  // ----- The read loop

  /** `data` has been read from `at` and is the file's; so is what the window has next, as far as it is wanted. */
  ghost predicate Going(w: Window, f: seq<Byte>, at: nat, data: seq<Byte>, n: nat)
    requires Placed(w) && w.head <= w.end && |data| <= n
  {
    && Content(w) == f && data == PRead(f, |data|, at) && w.head == at + |data|
    && Readable(w, Min(n - |data|, w.end - w.head))
  }

  /** What has been read is not the file's, or nothing has been read yet. */
  ghost predicate Straying(w: Window, w0: Window, f: seq<Byte>, at: nat, data: seq<Byte>) {
    if data == [] then w == w0 else data != PRead(f, |data|, at)
  }

  lemma NothingReadable(w: Window)
    requires Placed(w)
    ensures Readable(w, 0)
  {
  }

  /** One pass over a window that has been refilled. */
  lemma ReadPass(w: Window, f: seq<Byte>, at: nat, data: seq<Byte>, n: nat, k: nat)
    requires Valid(w) && |data| < n && w.head < w.end && k == Min(w.end - w.head, n - |data|)
    requires Going(w, f, at, data, n)
    ensures var h := w.head - w.start; var x := w.(head := w.head + k);
            Valid(x) && Going(x, f, at, data + w.buf[h..h + k], n)
  {
    hide Agrees, PWrite, Content, PRead;
    SkimReads(w, k);
    ReadMore(f, at, |data|, k);
    var x := w.(head := w.head + k);
    NothingReadable(x);
  }

  lemma RefilledGoes(w: Window, f: seq<Byte>, at: nat, data: seq<Byte>, n: nat)
    requires Valid(w) && |data| < n && Going(w, f, at, data, n)
    ensures Valid(Refilled(w)) && Going(Refilled(w), f, at, data, n)
  {
    hide Agrees, PWrite, Content, Tail, Refilled, PRead;
    RefilledValid(w);
    if w.head == w.end {
      SkimLoaded(Refilled(w), Min(n - |data|, Refilled(w).end - w.head));
    }
  }

  /** A read that is wrong from the start has read something that is not the file's after the first pass. */
  lemma StrayFirst(w: Window, n: nat, k: nat)
    requires Placed(w) && w.head < w.end && n > 0 && k == Min(w.end - w.head, n)
    requires w.head <= w.size && !RightRead(w, n)
    ensures var h := w.head - w.start; w.buf[h..h + k] != PRead(Content(w), k, w.head)
  {
    hide Content, PRead, Agrees;
    SliceAgrees(w.buf, Content(w), w.start, w.head - w.start, k);
  }

  lemma SliceAgrees(buf: seq<Byte>, f: seq<Byte>, start: nat, h: nat, k: nat)
    requires h + k <= |buf|
    ensures buf[h..h + k] == PRead(f, k, start + h) ==> Agrees(buf, f, start, h, h + k)
  {
    var p := PRead(f, k, start + h);
    if buf[h..h + k] == p {
      assert forall i: nat :: h <= i < h + k ==> buf[i] == buf[h..h + k][i - h] == p[i - h];
    }
  }

  /** What is not the file's does not become so by reading on. */
  lemma StrayMore(f: seq<Byte>, at: nat, data: seq<Byte>, more: seq<Byte>)
    ensures data + more == PRead(f, |data + more|, at) ==> data == PRead(f, |data|, at)
  {
    var p := PRead(f, |data + more|, at);
    if data + more == p {
      assert data == p[..|data|] == PRead(f, |data|, at);
    }
  }

  lemma StrayDone(f: seq<Byte>, at: nat, data: seq<Byte>, n: nat)
    requires |data| <= n
    ensures data == PRead(f, n, at) ==> data == PRead(f, |data|, at)
  {
  }

  lemma GoingContent(w: Window, f: seq<Byte>, at: nat, data: seq<Byte>, n: nat)
    requires Placed(w) && w.head <= w.end && |data| <= n
    ensures Going(w, f, at, data, n) ==> Content(w) == f
  {
  }

  lemma ReadPastSize(w: Window, n: nat)
    requires Placed(w) && w.head > w.size
    requires w.head <= w.end
    ensures [] == PRead(Content(w), n, w.head) <==> RightRead(w, n)
  {
  }

  // ----- The write loop

  /** The state of the write loop after `pos` bytes; `reached` says whether it began in a state that calls without a
      flush reach. */
  ghost predicate Writing(w: Window, f: seq<Byte>, at: nat, data: seq<Byte>, pos: nat, reached: bool) {
    && pos <= |data| && Half(w) && CanWrite(w, |data| - pos) && Content(w) == PWrite(f, data[..pos], at)
    && w.head == at + pos && (reached ==> Reached(w)) && (w.dirty || w.head <= w.end)
  }

  lemma WriteBegins(w: Window, data: seq<Byte>)
    requires Valid(w) && CanWrite(w, |data|)
    ensures Writing(w, Content(w), w.head, data, 0, Reached(w))
  {
    WriteNothing(Content(w), data, w.head);
  }

  /** What one pass of the write loop makes of the window. */
  lemma WritePass(w: Window, f: seq<Byte>, at: nat, data: seq<Byte>, pos: nat, reached: bool)
    requires Writing(w, f, at, data, pos, reached) && pos < |data|
    ensures NextCheck(w)
    ensures var x := Slid(w);
            && Placed(x) && x.head == w.head < x.start + CACHE_SIZE && x.size == w.size
            && var k := Min(|data| - pos, CACHE_SIZE - (x.head - x.start));
            && var y := Written(x, data[pos..pos + k]);
            && Placed(y) && y.size == w.size && Writing(y, f, at, data, pos + k, reached)
            && (Growing(w) ==> Growing(y))
            && (Settled(w) && w.head + (|data| - pos) <= |w.disk| ==>
                  Settled(y) && |y.disk| == |w.disk| && y.head <= y.end)
  {
    hide Agrees, PWrite, Content, Growing, Settled, CanWrite, Slid, Overlay, Tail, Loaded;
    CanWriteChecks(w, |data| - pos);
    SlidIs(w, |data| - pos);
    CanWriteSlid(w, |data| - pos);
    var x := Slid(w);
    var k := Min(|data| - pos, CACHE_SIZE - (x.head - x.start));
    SlidDisk(w, |data| - pos);
    WriteChunk(x, data, pos, k);
    if reached {
      SlidReached(w, |data| - pos);
      WrittenReached(x, data[pos..pos + k]);
    }
  }

  /** A settled file keeps room for the rest of a write inside it. */
  lemma SlidDisk(w: Window, n: nat)
    requires Half(w) && n > 0 && NextCheck(w)
    ensures Placed(Slid(w)) && (Settled(w) && w.head + n <= |w.disk| ==> Slid(w).head + n <= |Slid(w).disk|)
  {
    hide Agrees, PWrite, Content, CanWrite, Slid;
    SlidIs(w, n);
  }

  lemma WriteEnds(w: Window, f: seq<Byte>, at: nat, data: seq<Byte>, reached: bool)
    requires Writing(w, f, at, data, |data|, reached)
    ensures var x := Closed(w);
            && Valid(x) && (reached ==> Reached(x)) && Content(x) == PWrite(f, data, at) && (Growing(w) ==> Growing(x))
            && (w.head <= w.end ==> x == w)
  {
    hide Agrees, PWrite, Content, CanWrite, Tail, Loaded;
    assert data[..|data|] == data;
    ClosedIs(w);
    if reached { ClosedReached(w); }
  }

  lemma WritingHead(w: Window, f: seq<Byte>, at: nat, data: seq<Byte>, pos: nat, reached: bool)
    requires Writing(w, f, at, data, pos, reached)
    ensures w.head == at + pos && pos <= |data|
  {
  }

  // ----- The read loop as a whole

  /** The state of the read loop that began in `w0`. */
  ghost predicate Reading(w: Window, w0: Window, data: seq<Byte>, n: nat) {
    && Valid(w0) && w0.head <= w0.size && Placed(w) && w.head <= w.end && w.size == w0.size
    && |data| <= n && w.head == w0.head + |data|
    && (RightRead(w0, n) ==> Valid(w) && Going(w, Content(w0), w0.head, data, n))
    && (!RightRead(w0, n) ==> Straying(w, w0, Content(w0), w0.head, data))
    && (Reached(w0) ==> Valid(w) && Reached(w))
    && (Settled(w0) ==> Settled(w) && |w.disk| == |w0.disk|)
  }

  lemma ReadingBegins(w: Window, n: nat)
    requires Valid(w) && w.head <= w.size
    ensures Reading(w, w, [], n)
  {
    hide Agrees, PWrite, Content, Settled, Reached;
    NothingReadable(w);
  }

  /** The top of the loop; the early exit is taken only when all is read. */
  lemma ReadingRefill(w: Window, w0: Window, data: seq<Byte>, n: nat)
    requires Reading(w, w0, data, n) && |data| < n
    ensures var x := Refilled(w);
            && Reading(x, w0, data, n)
            && (x.head == x.end ==> if RightRead(w0, n) then x.head >= |Content(w0)| else data != [])
  {
    hide Agrees, PWrite, Content, Tail, Going, Settled, Loaded, Refilled, Straying, Reached;
    RefilledPlaced(w);
    if RightRead(w0, n) {
      GoingContent(w, Content(w0), w0.head, data, n);
      RefilledGoes(w, Content(w0), w0.head, data, n);
      RefilledValid(w);
    } else {
      StraysOn(w, w0, Content(w0), w0.head, data, n);
    }
    if Reached(w0) { RefilledReached(w); }
    if Settled(w0) {
      SettledRight(w0, n);
      RefilledValid(w);
    }
  }

  lemma RefilledPlaced(w: Window)
    requires Placed(w) && w.head <= w.end
    ensures var x := Refilled(w); Placed(x) && x.head == w.head <= x.end && x.size == w.size
  {
  }

  lemma StraysOn(w: Window, w0: Window, f: seq<Byte>, at: nat, data: seq<Byte>, n: nat)
    requires Placed(w0) && Placed(w) && w0.head <= w0.end && Content(w0) == f && w0.head == at <= w0.size
    requires !RightRead(w0, n) && Straying(w, w0, f, at, data)
    ensures Straying(Refilled(w), w0, f, at, data)
    ensures Refilled(w).head == Refilled(w).end ==> data != []
  {
    if w0.head == w0.end { NothingReadable(w0); }
  }

  /** Reading a settled file is always right. */
  lemma SettledRight(w: Window, n: nat)
    requires Valid(w) && Settled(w)
    ensures RightRead(w, n)
  {
    hide Agrees, PWrite, Content, Tail;
    SkimLoaded(w, Min(n, w.end - w.head));
  }

  /** The rest of the loop body. */
  lemma ReadingPass(w: Window, w0: Window, data: seq<Byte>, n: nat, k: nat)
    requires Reading(w, w0, data, n) && |data| < n && w.head < w.end && k == Min(w.end - w.head, n - |data|)
    ensures var h := w.head - w.start;
            h + k <= |w.buf| && Reading(w.(head := w.head + k), w0, data + w.buf[h..h + k], n)
  {
    hide Agrees, PWrite, Content, Tail, Going, Settled, Loaded, RightRead, Reached, PRead;
    var f, at, h := Content(w0), w0.head, w.head - w.start;
    if RightRead(w0, n) {
      ReadPass(w, f, at, data, n, k);
    } else if data == [] {
      StrayFirst(w, n, k);
      assert [] + w.buf[h..h + k] == w.buf[h..h + k];
    } else {
      StrayMore(f, at, data, w.buf[h..h + k]);
    }
    if Reached(w0) { Skim(w, k); }
    if Settled(w0) {
      SettledRight(w0, n);
      SettledReads(w, k);
    }
  }

  lemma ReadingDone(w: Window, w0: Window, data: seq<Byte>, n: nat)
    requires Reading(w, w0, data, n)
    requires |data| == n || if RightRead(w0, n) then w.head >= |Content(w0)| else data != []
    ensures data == PRead(Content(w0), n, w0.head) <==> RightRead(w0, n)
    ensures RightRead(w0, n) ==> Valid(w) && Content(w) == Content(w0)
    ensures Reached(w0) ==> Valid(w) && Reached(w)
    ensures Settled(w0) ==> Settled(w) && |w.disk| == |w0.disk|
  {
    hide Agrees, PWrite, Content, Settled, Loaded, Reached, PRead;
    if RightRead(w0, n) {
      ReadEnds(Content(w0), w0.head, |data|, n);
    } else {
      StrayDone(Content(w0), w0.head, data, n);
    }
  }

  // ----- After an explicit flush

  /** After a flush of a used-up window, reading `n` bytes is right exactly when the first ones, as many as the cache
      holds, happen to lie at the start of the buffer. */
  lemma AfterFlush(w: Window, n: nat)
    requires Valid(w) && w.head == w.end
    ensures var x := Flushed(w); var k := Min(n, CACHE_SIZE);
            && Valid(x) && Content(x) == Content(w)
            && (RightRead(x, n) <==>
                  n == 0 || if w.head > w.size then w.head >= |Content(w)|
                            else w.head + k <= |Content(w)| && w.buf[..k] == Content(w)[w.head..w.head + k])
  {
    hide PWrite;
    FlushKeeps(w);
    var x, k := Flushed(w), Min(n, CACHE_SIZE);
    hide Flushed, Content;
    if w.head + k <= |Content(w)| {
      StartOfBuffer(w.buf, Content(w), w.head, k);
    }
  }

  lemma StartOfBuffer(buf: seq<Byte>, f: seq<Byte>, start: nat, k: nat)
    requires k <= |buf| && start + k <= |f|
    ensures Agrees(buf, f, start, 0, k) <==> buf[..k] == f[start..start + k]
  {
    if buf[..k] == f[start..start + k] {
      forall i: nat | i < k ensures buf[i] == f[start + i] {
        assert buf[..k][i] == f[start..start + k][i];
      }
    }
  }
}
