/** Pipes (pipe.c): a ring of PIPESIZE bytes between two counters that wrap around at 2^32. */
module Pipe {
  import opened Blocks

  const PIPESIZE: nat := 512

  type Data = d: seq<Byte> | |d| == PIPESIZE witness seq(PIPESIZE, _ => 0)

  datatype Ring = Ring(data: Data, nread: Word, nwrite: Word)

  predicate IsFull(r: Ring) {
    r.nwrite == (r.nread + PIPESIZE) % U32
  }

  predicate IsEmpty(r: Ring) {
    r.nread == r.nwrite
  }

  /** One byte written, one byte read. */
  function Put(r: Ring, b: Byte): Ring {
    Ring(r.data[r.nwrite % PIPESIZE := b], r.nread, (r.nwrite + 1) % U32)
  }

  function Next(r: Ring): Byte {
    r.data[r.nread % PIPESIZE]
  }

  function Get(r: Ring): Ring {
    r.(nread := (r.nread + 1) % U32)
  }

  /** The bytes in the pipe, oldest first: nwrite - nread of them, as 32-bit unsigned numbers are subtracted. */
  function Count(r: Ring): nat {
    if r.nread <= r.nwrite then r.nwrite - r.nread else r.nwrite + U32 - r.nread
  }

  function SlotAt(n: nat, i: nat): (k: nat)
    ensures k < PIPESIZE
  {
    (n + i) % U32 % PIPESIZE
  }

  function Buffered(r: Ring): (s: seq<Byte>)
    ensures |s| == Count(r)
  {
    seq(Count(r), i requires 0 <= i => r.data[SlotAt(r.nread, i)])
  }

  /** The counters are at most PIPESIZE apart. */
  predicate RingOk(r: Ring) {
    Count(r) <= PIPESIZE
  }

  lemma WrapSlot(x: nat)
    ensures x % U32 % PIPESIZE == x % PIPESIZE
  {
    assert x == U32 * (x / U32) + x % U32;
    assert U32 * (x / U32) == PIPESIZE * (0x80_0000 * (x / U32));
    Multiple(0x80_0000 * (x / U32), x % U32);
  }

  lemma Multiple(k: nat, y: nat)
    ensures (PIPESIZE * k + y) % PIPESIZE == y % PIPESIZE
  {
    assert (PIPESIZE * k + y) / PIPESIZE == k + y / PIPESIZE;
  }

  lemma FullIff(r: Ring)
    requires RingOk(r)
    ensures IsFull(r) <==> Count(r) == PIPESIZE
    ensures IsEmpty(r) <==> Count(r) == 0
  {}

  lemma PutCount(r: Ring, b: Byte)
    requires RingOk(r) && !IsFull(r)
    ensures var q := Put(r, b);
            Count(r) < PIPESIZE && Count(q) == Count(r) + 1 && q.nread == r.nread && q.data == r.data[SlotAt(r.nread, Count(r)) := b]
  {
    FullIff(r);
    EndSlot(r);
  }

  lemma EndSlot(r: Ring)
    ensures SlotAt(r.nread, Count(r)) == r.nwrite % PIPESIZE
  {
    assert (r.nread + Count(r)) % U32 == r.nwrite;
  }

  /** Putting a byte in a pipe that is not full adds it behind the others, wherever the counters are. */
  lemma PutOk(r: Ring, b: Byte)
    requires RingOk(r) && !IsFull(r)
    ensures RingOk(Put(r, b)) && Buffered(Put(r, b)) == Buffered(r) + [b]
  {
    hide Put, Count, SlotAt, IsFull;
    var q := Put(r, b);
    PutCount(r, b);
    forall i: nat | i < Count(r) ensures Buffered(q)[i] == Buffered(r)[i] {
      SlotKept(r, i);
    }
  }

  lemma SlotKept(r: Ring, i: nat)
    requires i < Count(r) < PIPESIZE
    ensures SlotAt(r.nread, i) != SlotAt(r.nread, Count(r))
  {
    WrapSlot(r.nread + i);
    WrapSlot(r.nread + Count(r));
    OtherSlot(r.nread, i, Count(r));
  }

  lemma OtherSlot(n: nat, i: nat, c: nat)
    requires i < c < PIPESIZE
    ensures (n + i) % PIPESIZE != (n + c) % PIPESIZE
  {
    assert n + c - (n + i) == PIPESIZE * ((n + c) / PIPESIZE - (n + i) / PIPESIZE) + (n + c) % PIPESIZE - (n + i) % PIPESIZE;
  }

  lemma GetCount(r: Ring)
    requires RingOk(r) && !IsEmpty(r)
    ensures var q := Get(r);
            Count(r) == Count(q) + 1 && q.data == r.data && Next(r) == r.data[SlotAt(r.nread, 0)] && q.nread == (r.nread + 1) % U32
  {
    FullIff(r);
  }

  /** Getting a byte takes the oldest. */
  lemma GetOk(r: Ring)
    requires RingOk(r) && !IsEmpty(r)
    ensures RingOk(Get(r)) && Buffered(r) == [Next(r)] + Buffered(Get(r))
  {
    hide Get, Count, SlotAt, Next, IsEmpty;
    var q := Get(r);
    GetCount(r);
    forall i: nat | 0 < i < Count(r) ensures SlotAt(r.nread, i) == SlotAt(q.nread, i - 1) {
      SlotShift(r.nread, i);
    }
  }

  lemma SlotShift(n: Word, i: nat)
    requires 0 < i
    ensures SlotAt((n + 1) % U32, i - 1) == SlotAt(n, i)
  {}

  // ----- runs

  datatype Op = Write(b: Byte) | Read

  /** A pipe with the bytes writers handed over and the bytes readers received. */
  datatype Run = Run(ring: Ring, accepted: seq<Byte>, delivered: seq<Byte>)

  /** One byte step by a writer or a reader; a full or an empty pipe makes it wait, which changes nothing. */
  function Step(s: Run, op: Op): Run {
    match op
    case Write(b) =>
      if IsFull(s.ring) then s else Run(Put(s.ring, b), s.accepted + [b], s.delivered)
    case Read =>
      if IsEmpty(s.ring) then s else Run(Get(s.ring), s.accepted, s.delivered + [Next(s.ring)])
  }

  function Steps(s: Run, ops: seq<Op>): Run {
    if ops == [] then s else Step(Steps(s, ops[..|ops| - 1]), ops[|ops| - 1])
  }

  /** First in, first out, over every interleaving and across the wrap of both counters. */
  lemma {:induction false} RunFifo(s: Run, ops: seq<Op>)
    requires RingOk(s.ring) && s.delivered + Buffered(s.ring) == s.accepted
    ensures var e := Steps(s, ops);
            RingOk(e.ring) && e.delivered + Buffered(e.ring) == e.accepted
  {
    if ops != [] {
      RunFifo(s, ops[..|ops| - 1]);
      var m := Steps(s, ops[..|ops| - 1]);
      match ops[|ops| - 1] {
        case Write(b) => if !IsFull(m.ring) { PutOk(m.ring, b); }
        case Read =>
          if !IsEmpty(m.ring) {
            GetOk(m.ring);
            assert m.delivered + ([Next(m.ring)] + Buffered(Get(m.ring))) == m.delivered + [Next(m.ring)] + Buffered(Get(m.ring));
          }
      }
    }
  }

  // ----- the pipe

  datatype Stretch = Finished | Closed | Asleep

  class PipeBuf {
    const data: array<Byte>
    var nread: Word
    var nwrite: Word
    var readopen: bool
    var writeopen: bool

    ghost predicate Valid()
      reads this, data
    {
      data.Length == PIPESIZE && RingOk(State())
    }

    ghost function State(): Ring
      reads this, data
      requires data.Length == PIPESIZE
    {
      Ring(data[..], nread, nwrite)
    }

    constructor ()
      ensures Valid() && fresh(data) && Buffered(State()) == [] && readopen && writeopen
    {
      data := new Byte[PIPESIZE](_ => 0);
      readopen, writeopen := true, true;
      nwrite := 0;
      nread := 0;
    }

    method PutByte(b: Byte)
      requires Valid() && !IsFull(State())
      modifies this`nwrite, data
      ensures Valid() && State() == Put(old(State()), b) && Buffered(State()) == old(Buffered(State())) + [b]
    {
      hide Buffered, RingOk;
      PutOk(State(), b);
      data[nwrite % PIPESIZE] := b;
      nwrite := (nwrite + 1) % U32;
      assert State() == Put(old(State()), b);
    }

    /** pipewrite while it holds the lock, with i bytes of addr written before: it goes on to the end, or to a full pipe,
        where it sleeps, or gives up when there is no reader or the process was killed. */
    method Pipewrite(addr: seq<Byte>, i: nat, killed: bool) returns (r: Stretch, j: nat)
      requires Valid() && i <= |addr|
      modifies this`nwrite, data
      ensures Valid() && i <= j <= |addr|
      ensures Buffered(State()) == old(Buffered(State())) + addr[i..j]
      ensures r.Finished? <==> j == |addr|
      ensures j < |addr| ==> |Buffered(State())| == PIPESIZE && (r.Closed? <==> !readopen || killed)
    {
      hide Buffered, RingOk, Put;
      ghost var before := Buffered(State());
      j := i;
      assert before + addr[i..j] == before;
      while j < |addr|
        invariant i <= j <= |addr| && Valid() && Buffered(State()) == before + addr[i..j]
      {
        FullBuffered(State());
        if nwrite == (nread + PIPESIZE) % U32 {
          return (if !readopen || killed then Closed else Asleep), j;
        }
        PutByte(addr[j]);
        assert before + addr[i..j] + [addr[j]] == before + addr[i..j + 1];
        j := j + 1;
      }
      r := Finished;
    }

    /** piperead while it holds the lock: it sleeps on an empty pipe that has a writer, or else takes as many bytes as there
        are, up to n. */
    method Piperead(n: nat, killed: bool) returns (r: Stretch, addr: seq<Byte>)
      requires Valid()
      modifies this`nread
      ensures Valid()
      ensures !r.Finished? <==> old(Buffered(State())) == [] && writeopen
      ensures !r.Finished? ==> addr == [] && State() == old(State()) && (r.Closed? <==> killed)
      ensures r.Finished? ==> addr + Buffered(State()) == old(Buffered(State()))
      ensures r.Finished? ==> |addr| == n || (|addr| < n && Buffered(State()) == [])
    {
      hide Buffered, RingOk, Get, Next;
      ghost var before := Buffered(State());
      FullBuffered(State());
      addr := [];
      if nread == nwrite && writeopen {
        return (if killed then Closed else Asleep), [];
      }
      assert addr + before == before;
      var i := 0;
      while i < n
        invariant i == |addr| <= n && Valid() && addr + Buffered(State()) == before
      {
        ghost var s := State();
        FullBuffered(s);
        if nread == nwrite {
          break;
        }
        NotEmpty(s, addr);
        addr := addr + [data[nread % PIPESIZE]];
        nread := (nread + 1) % U32;
        i := i + 1;
      }
      r := Finished;
    }
  }

  lemma FullBuffered(r: Ring)
    requires RingOk(r)
    ensures IsFull(r) <==> |Buffered(r)| == PIPESIZE
    ensures IsEmpty(r) <==> Buffered(r) == []
  {
    FullIff(r);
  }

  lemma NotEmpty(r: Ring, taken: seq<Byte>)
    requires RingOk(r) && !IsEmpty(r)
    ensures Get(r) == Ring(r.data, (r.nread + 1) % U32, r.nwrite) && RingOk(Get(r))
    ensures taken + Buffered(r) == taken + [r.data[r.nread % PIPESIZE]] + Buffered(Get(r))
  {
    GetOk(r);
    assert taken + ([Next(r)] + Buffered(Get(r))) == taken + [Next(r)] + Buffered(Get(r));
  }
}
