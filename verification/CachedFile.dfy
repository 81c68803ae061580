/** The caching file library, with its buffer updated in place. */
module CachedFile {
  import opened OsFile
  import opened CacheWindow
  import opened CacheReach

  class CachedFile {
    var disk: seq<Byte>       // the file as the operating system has it
    const cache: array<Byte>
    var dirty: bool
    var head: nat
    var cacheStart: nat
    var cacheEnd: nat
    var fileSize: nat
    var forward: bool         // direction

    function W(): Window
      reads this, cache
    {
      Window(disk, cache[..], dirty, head, cacheStart, cacheEnd, fileSize)
    }

    /** `check_invariants()`; asserted wherever the library calls it. */
    predicate Check()
      reads this
    {
      cacheStart <= head && head <= cacheEnd && cacheEnd - cacheStart <= CACHE_SIZE
    }

    ghost predicate Ok()
      reads this, cache
    {
      forward && Valid(W())
    }

    /** `io300_flush`. */
    method Flush()
      requires Placed(W()) && Check()
      modifies this
      ensures W() == Flushed(old(W())) && forward == old(forward)
    {
      disk := PWrite(disk, cache[..head - cacheStart], cacheStart);
      assert cache[..][..head - cacheStart] == cache[..head - cacheStart];
      cacheStart := head;
      cacheEnd := cacheEnd + CACHE_SIZE;
      dirty := false;
    }

    /** `memcpy` into the cache. */
    method Fill(at: nat, data: seq<Byte>)
      requires at + |data| <= cache.Length
      modifies cache
      ensures cache[..] == Overlay(old(cache[..]), at, data)
    {
      var i := 0;
      while i < |data|
        invariant i <= |data|
        invariant cache[..] == Overlay(old(cache[..]), at, data[..i])
      {
        cache[at + i] := data[i];
        i := i + 1;
      }
      assert data[..|data|] == data;
    }

    /** `io300_fetch`; the direction never changes, so the fetch is always forward. */
    method Fetch()
      requires Placed(W()) && Check() && forward
      modifies this, cache
      ensures W() == Fetched(old(W())) && forward
    {
      hide PWrite, Agrees, Overlay;
      if dirty {
        Flush();
      } else {
        head := cacheEnd;
        cacheStart := head;
      }
      forward := if head < cacheStart then false else if head > cacheEnd then true else forward;
      var from := FetchStart(head, forward);
      var to := if forward then head + CACHE_SIZE else head;
      var got := PRead(disk, to - from, from);
      Fill(0, got);
      cacheStart := from;
      cacheEnd := from + |got|;
    }

    /** `io300_open`. */
    constructor (contents: seq<Byte>)
      ensures fresh(cache) && Ok() && Reached(W()) && Settled(W()) && Growing(W()) && !dirty
      ensures disk == contents && head == 0
      ensures Content(W()) == contents
    {
      disk := contents;
      cache := new Byte[CACHE_SIZE];
      dirty, head, cacheStart, cacheEnd, forward := false, 0, 0, 0, true;
      fileSize := |contents|;
      new;
      FetchedLoaded(W());
      FetchedReached(W());
      Fetch();
    }

    /** `io300_seek`. */
    method Seek(pos: nat) returns (r: nat)
      requires Ok()
      modifies this, cache
      ensures Ok() && W() == Sought(old(W()), pos) && Reached(W()) && r == pos
    {
      hide Agrees, PWrite, Content, Tail, Loaded, Landed, Reached;
      assert Check();
      SoughtLoaded(W(), pos);
      SoughtReached(W(), pos);
      if dirty {
        Flush();
      }
      Land(pos);
      return head;
    }

    /** The rest of `io300_seek`. */
    method Land(pos: nat)
      requires cache.Length == CACHE_SIZE && !dirty
      modifies this, cache
      ensures W() == Landed(old(W()), pos) && forward == old(forward)
    {
      head := pos;
      cacheStart := head;
      cacheEnd := head;
      if head > fileSize {
        fileSize := head;
      } else {
        var toRead := if head + CACHE_SIZE > fileSize then fileSize - head else CACHE_SIZE;
        var got := PRead(disk, toRead, head);
        Fill(0, got);
        cacheEnd := head + |got|;
      }
    }

    /** `io300_readc`. */
    method ReadC() returns (r: int)
      requires Ok()
      modifies this, cache
      ensures forward && (W(), r) == GetC(old(W()))
      ensures old(RightRead(W(), 1)) ==> Ok()
      ensures old(Reached(W())) ==> Ok() && Reached(W())
    {
      hide Agrees, PWrite, Content, Tail, Loaded, Fetched, RightRead, Reached;
      assert Check();
      ReadCExact(W());
      if Reached(W()) { GetCReached(W()); }
      RefilledValid(W());
      if head > fileSize {
        return -1;
      }
      if head == cacheEnd {
        Fetch();
        if head == cacheEnd {
          return -1;
        }
      }
      r := cache[head - cacheStart];
      head := head + 1;
    }

    /** `io300_writec`. */
    method WriteC(ch: int) returns (r: int)
      requires Ok()
      modifies this, cache
      ensures Ok() && W() == PutC(old(W()), ch) && r == ch
      ensures old(Reached(W())) ==> Reached(W())
    {
      hide Agrees, PWrite, Content, Fetched, Flushed, Reached;
      assert Check();
      PutCIs(W(), ch);
      if Reached(W()) { PutCReached(W(), ch); }
      RoomyIs(W());
      if head == cacheEnd {
        if head < |disk| {
          Fetch();
        } else {
          Flush();
        }
      }
      assert W() == Roomy(old(W()));
      Put([ToByte(ch)]);
      return ch;
    }

    /** The top of both read loops: fetch when the window is used up. */
    method Refill()
      requires Placed(W()) && Check() && forward
      modifies this, cache
      ensures W() == Refilled(old(W())) && forward
    {
      if head == cacheEnd {
        Fetch();
      }
    }

    /** `io300_read`: everything up to the end of the file, however many windows it takes, exactly when the state
        is right for it. */
    method Read(n: nat) returns (data: seq<Byte>)
      requires Ok()
      modifies this, cache
      ensures forward && fileSize == old(fileSize) && head == old(head) + |data|
      ensures data == PRead(old(Content(W())), n, old(head)) <==> old(RightRead(W(), n))
      ensures old(RightRead(W(), n)) ==> Ok() && Content(W()) == old(Content(W()))
      ensures old(Reached(W())) ==> Ok() && Reached(W())
      ensures old(Settled(W())) ==> Settled(W()) && |disk| == old(|disk|)
      ensures Placed(W()) && (|data| < n && old(head) <= fileSize ==> head == cacheEnd)
    {
      hide Agrees, PWrite, PRead, Content, Loaded, Settled, Refilled, Tail, RightRead, Going, Straying, Reached;
      assert Check();
      data := [];
      if head > fileSize {
        ReadPastSize(W(), n);
        return;
      }
      ghost var w0 := W();
      ReadingBegins(w0, n);
      while |data| < n
        invariant forward && Reading(W(), w0, data, n)
      {
        ReadingRefill(W(), w0, data, n);
        Refill();
        if head == cacheEnd {
          break;
        }
        var k := Min(cacheEnd - head, n - |data|);
        var from := head - cacheStart;
        ReadingPass(W(), w0, data, n, k);
        assert cache[..][from..from + k] == cache[from..from + k];
        data := data + cache[from..from + k];
        head := head + k;
      }
      ReadingDone(W(), w0, data, n);
    }

    /** The top of the write loop: make room at the end of the window. */
    method Slide()
      requires Placed(W()) && forward && NextCheck(W())
      modifies this, cache
      ensures W() == Slid(old(W())) && forward
    {
      hide PWrite, Fetched;
      if head == cacheStart + CACHE_SIZE {
        if head < fileSize {
          Fetch();
        } else {
          if cacheEnd < head {
            cacheEnd := cacheStart + CACHE_SIZE;
          }
          Flush();
        }
      }
    }

    /** The rest of the loop body: copy a chunk that fits. */
    method Put(chunk: seq<Byte>)
      requires Placed(W()) && head + |chunk| <= cacheStart + CACHE_SIZE
      modifies this, cache
      ensures W() == Written(old(W()), chunk) && forward == old(forward)
    {
      Fill(head - cacheStart, chunk);
      head := head + |chunk|;
      dirty := true;
    }

    /** `io300_write`. */
    method Write(data: seq<Byte>) returns (r: nat)
      requires Ok() && CanWrite(W(), |data|)
      modifies this, cache
      ensures Ok() && Content(W()) == PWrite(old(Content(W())), data, old(head)) && fileSize == old(fileSize)
      ensures head == old(head) + |data| && r == |data|
      ensures old(Reached(W())) ==> Reached(W())
      ensures old(Growing(W())) ==> Growing(W())
      ensures old(Settled(W()) && head + |data| <= |disk|) ==> Settled(W()) && |disk| == old(|disk|)
    {
      hide Agrees, PWrite, Content, Growing, Settled, CanWrite, Slid, Overlay, Tail, Loaded, Reached, Written, Closed,
           Writing;
      ghost var f, at, inside := Content(W()), head, Settled(W()) && head + |data| <= |disk|;
      ghost var reached := Reached(W());
      assert Check();
      var pos := 0;
      WriteBegins(W(), data);
      while pos < |data|
        invariant pos <= |data| && forward && fileSize == old(fileSize) && Placed(W()) && head == at + pos
        invariant Writing(W(), f, at, data, pos, reached)
        invariant old(Growing(W())) ==> Growing(W())
        invariant inside ==> Settled(W()) && |disk| == old(|disk|) && head <= cacheEnd
      {
        WritePass(W(), f, at, data, pos, reached);
        Slide();
        var k := Min(|data| - pos, CACHE_SIZE - (head - cacheStart));
        Put(data[pos..pos + k]);
        pos := pos + k;
        WritingHead(W(), f, at, data, pos, reached);
      }
      WriteEnds(W(), f, at, data, reached);
      CloseWindow();
      return pos;
    }

    /** The last statement of `io300_write`. */
    method CloseWindow()
      requires Placed(W())
      modifies this`cacheEnd
      ensures W() == Closed(old(W()))
    {
      if cacheEnd < head {
        cacheEnd := cacheStart + CACHE_SIZE;
      }
    }

    /** `io300_close`: the file the library leaves behind. */
    method Close()
      requires Ok()
      modifies this
      ensures disk == old(Content(W()))
    {
      assert Check();
      FlushedContent(W());
      if dirty {
        Flush();
      }
    }

    /** One call that is right in this state is the uncached library's call. */
    method Do(op: Op) returns (o: Outcome)
      requires Ok() && Right(W(), op)
      modifies this, cache
      ensures Ok() && (File(Content(W()), head), o) == Naive(File(old(Content(W())), old(head)), op)
      ensures Kept(old(W()), op, W())
    {
      hide Agrees, PWrite, PRead, Content, Sought, Full, Loaded, GetC, PutC, Growing, Tail, RightRead, Flushed, Reached;
      match op {
        case Seek(pos) =>
          SoughtKeeps(W(), pos);
          SoughtLoaded(W(), pos);
          var r := Seek(pos);
          o := Moved(r);
        case ReadC =>
          ReadCExact(W());
          GetCSettled(W());
          var c := ReadC();
          o := Char(c);
        case Read(n) =>
          var data := Read(n);
          o := Bytes(data);
        case WriteC(ch) =>
          PutCIs(W(), ch);
          var r := WriteC(ch);
          o := Wrote(r);
        case Write(data) =>
          var r := Write(data);
          o := Wrote(r);
        case Flush =>
          FlushKeeps(W());
          Flush();
          o := Synced;
      }
    }
  }

  /** Where a fetch begins. */
  function FetchStart(head: nat, forward: bool): nat {
    if forward then head else if head < CACHE_SIZE then 0 else head - CACHE_SIZE
  }
}
