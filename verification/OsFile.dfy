/** The operating system's file as the two file libraries see it, and the uncached library over it. */
module OsFile {

  type Byte = b: int | 0 <= b < 256

  function Min(a: nat, b: nat): nat {
    if a < b then a else b
  }

  function Max(a: nat, b: nat): nat {
    if a < b then b else a
  }

  /** `pread`: short only at the end of the file. */
  function PRead(disk: seq<Byte>, n: nat, off: nat): (r: seq<Byte>)
    ensures |r| == if off < |disk| then Min(n, |disk| - off) else 0
    ensures forall i: nat :: i < |r| ==> r[i] == disk[off + i]
  {
    if off < |disk| then disk[off..off + Min(n, |disk| - off)] else []
  }

  /** `pwrite`: a write past the end fills the gap with zeros; writing nothing changes nothing. */
  function PWrite(disk: seq<Byte>, data: seq<Byte>, off: nat): (r: seq<Byte>)
    ensures |r| == if data == [] then |disk| else Max(|disk|, off + |data|)
    ensures forall i: nat :: i < |r| ==>
              r[i] == if off <= i < off + |data| then data[i - off] else if i < |disk| then disk[i] else 0
  {
    if data == [] then
      disk
    else
      seq(Max(|disk|, off + |data|), (i: nat) =>
        if off <= i < off + |data| then data[i - off] else if i < |disk| then disk[i] else 0)
  }

  /** Two adjacent writes are one write. */
  lemma WriteWrite(disk: seq<Byte>, p: seq<Byte>, q: seq<Byte>, off: nat)
    ensures PWrite(PWrite(disk, p, off), q, off + |p|) == PWrite(disk, p + q, off)
  {
    if p == [] { assert p + q == q; }
    if q == [] { assert p + q == p; }
  }

  /** Writing what is there changes nothing. */
  lemma WriteSame(disk: seq<Byte>, p: seq<Byte>, off: nat)
    requires p == [] || (off + |p| <= |disk| && p == disk[off..off + |p|])
    ensures PWrite(disk, p, off) == disk
  {
  }

  // ----- The uncached library

  /** Contents and file offset. */
  datatype File = File(content: seq<Byte>, pos: nat)

  datatype Op =
    | Seek(pos: nat)
    | ReadC
    | Read(n: nat)
    | WriteC(ch: int)
    | Write(data: seq<Byte>)
    | Flush

  /** What a call returns; a character is -1 at end of file, and `Bytes` also tells the count. */
  datatype Outcome = Moved(pos: nat) | Char(c: int) | Bytes(data: seq<Byte>) | Wrote(n: int) | Synced

  function ToByte(ch: int): Byte {
    ch % 256
  }

  /** One call of the uncached library. */
  function Naive(f: File, op: Op): (File, Outcome) {
    match op
    case Seek(pos) => (f.(pos := pos), Moved(pos))
    case ReadC =>
      var r := PRead(f.content, 1, f.pos);
      if |r| == 1 then (f.(pos := f.pos + 1), Char(r[0])) else (f, Char(-1))
    case Read(n) =>
      var r := PRead(f.content, n, f.pos);
      (f.(pos := f.pos + |r|), Bytes(r))
    case WriteC(ch) => (File(PWrite(f.content, [ToByte(ch)], f.pos), f.pos + 1), Wrote(ch))
    case Write(data) => (File(PWrite(f.content, data, f.pos), f.pos + |data|), Wrote(|data|))
    case Flush => (f, Synced)
  }

  /** A whole run: the file at the end and everything the calls returned. */
  function NaiveRun(f: File, ops: seq<Op>): (File, seq<Outcome>) {
    if ops == [] then (f, [])
    else
      var before := NaiveRun(f, ops[..|ops| - 1]);
      var after := Naive(before.0, ops[|ops| - 1]);
      (after.0, before.1 + [after.1])
  }

  /** What was written is read back from where it was written, and nothing else of the file has changed. */
  lemma WrittenIsRead(f: File, data: seq<Byte>)
    ensures var (g, answers) := NaiveRun(f, [Write(data), Flush, Seek(f.pos), Read(|data|)]);
            && answers == [Wrote(|data|), Synced, Moved(f.pos), Bytes(data)] && g.pos == f.pos + |data|
            && (data != [] ==> |g.content| == Max(|f.content|, f.pos + |data|))
            && (data == [] ==> g.content == f.content)
            && forall i: nat :: i < |g.content| && !(f.pos <= i < g.pos) ==>
                 g.content[i] == if i < |f.content| then f.content[i] else 0
  {
    hide PWrite, PRead;
    RunOf4(f, Write(data), Flush, Seek(f.pos), Read(|data|));
    var c := PWrite(f.content, data, f.pos);
    assert PRead(c, |data|, f.pos) == data;
  }

  /** A character is kept modulo 256. */
  lemma CharacterIsRead(f: File, ch: int)
    ensures NaiveRun(f, [WriteC(ch), Flush, Seek(f.pos), ReadC]).1 == [Wrote(ch), Synced, Moved(f.pos), Char(ch % 256)]
    ensures NaiveRun(f, [WriteC(ch), Flush, Seek(f.pos), ReadC]).0 ==
            File(PWrite(f.content, [ch % 256], f.pos), f.pos + 1)
  {
    hide PWrite, PRead;
    RunOf4(f, WriteC(ch), Flush, Seek(f.pos), ReadC);
  }

  /** Reading characters gives the file's bytes in order, and -1 at its end, any number of times. */
  lemma {:induction false} CharactersInOrder(content: seq<Byte>, n: nat)
    ensures var (g, answers) := NaiveRun(File(content, 0), seq(n, _ => ReadC));
            && g == File(content, Min(n, |content|)) && |answers| == n
            && forall i: nat :: i < n ==> answers[i] == Char(if i < |content| then content[i] else -1)
  {
    if n > 0 {
      CharactersInOrder(content, n - 1);
      assert seq(n, _ => ReadC)[..n - 1] == seq(n - 1, _ => ReadC);
    }
  }

  lemma RunOf4(f: File, a: Op, b: Op, c: Op, d: Op)
    ensures var f1, f2 := Naive(f, a), Naive(Naive(f, a).0, b);
            var f3 := Naive(f2.0, c);
            var f4 := Naive(f3.0, d);
            NaiveRun(f, [a, b, c, d]) == (f4.0, [f1.1, f2.1, f3.1, f4.1])
  {
    hide Naive, NaiveRun;
    RunOneMore(f, [], a);
    RunOneMore(f, [a], b);
    RunOneMore(f, [a, b], c);
    RunOneMore(f, [a, b, c], d);
    assert [] + [a] == [a] && [a] + [b] == [a, b] && [a, b] + [c] == [a, b, c] && [a, b, c] + [d] == [a, b, c, d];
    assert NaiveRun(f, [a, b, c, d]).1 ==
           [Naive(f, a).1, Naive(NaiveRun(f, [a]).0, b).1, Naive(NaiveRun(f, [a, b]).0, c).1,
            Naive(NaiveRun(f, [a, b, c]).0, d).1];
  }

  lemma RunOneMore(f: File, ops: seq<Op>, op: Op)
    ensures NaiveRun(f, []) == (f, [])
    ensures var g, h := NaiveRun(f, ops), Naive(NaiveRun(f, ops).0, op);
            NaiveRun(f, ops + [op]) == (h.0, g.1 + [h.1])
  {
    assert (ops + [op])[..|ops|] == ops;
  }
}
