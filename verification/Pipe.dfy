/** pipe.c: a ring of PIPESIZE bytes with two 32-bit counters that only ever grow and wrap. */
module Pipe {
  import opened Bytes

  const PIPESIZE := 512
  const WRAP := 0x1_0000_0000

  // ---------- the ring as a value ----------

  datatype Ring = Ring(data: seq<byte>, nread: uint32, nwrite: uint32, readopen: bool, writeopen: bool)

  /** `p->nwrite == p->nread + PIPESIZE` in 32-bit arithmetic. */
  predicate Full(p: Ring) {
    p.nwrite == (p.nread + PIPESIZE) % WRAP
  }

  predicate Empty(p: Ring) {
    p.nread == p.nwrite
  }

  /** `p->data[p->nwrite++ % PIPESIZE] = x` */
  function Push(p: Ring, x: byte): (r: Ring)
    requires |p.data| == PIPESIZE
    ensures |r.data| == PIPESIZE
  {
    p.(data := p.data[p.nwrite % PIPESIZE := x], nwrite := (p.nwrite + 1) % WRAP)
  }

  /** `p->data[p->nread % PIPESIZE]`, before nread is advanced. */
  function Front(p: Ring): (x: byte)
    requires |p.data| == PIPESIZE
  {
    p.data[p.nread % PIPESIZE]
  }

  function Pop(p: Ring): (r: Ring) {
    p.(nread := (p.nread + 1) % WRAP)
  }

  /** The ring holds the bytes written but not yet taken.  The counters are the true counts
      modulo 2^32. */
  ghost predicate Holds(p: Ring, written: seq<byte>, taken: nat) {
    && |p.data| == PIPESIZE && taken <= |written| <= taken + PIPESIZE
    && p.nread == taken % WRAP && p.nwrite == |written| % WRAP
    && forall k | taken <= k < |written| :: p.data[k % PIPESIZE] == written[k]
  }

  lemma {:induction false} HoldsShape(p: Ring, written: seq<byte>, taken: nat)
    requires Holds(p, written, taken)
    ensures |p.data| == PIPESIZE
  {
  }

  /** Wrapped or not, the counter tests mean full and empty. */
  lemma {:induction false} TestsExact(p: Ring, written: seq<byte>, taken: nat)
    requires Holds(p, written, taken)
    ensures Full(p) <==> |written| == taken + PIPESIZE
    ensures Empty(p) <==> |written| == taken
  {
    var d := |written| - taken;
    WrapAdd(taken, d);
    WrapAdd(taken, PIPESIZE);
    assert (p.nread + PIPESIZE) % WRAP == (taken + PIPESIZE) % WRAP;
  }

  /** Adding less than 2^32 either stays below the wrap or wraps once. */
  lemma {:induction false} WrapAdd(a: nat, d: nat)
    requires d < WRAP
    ensures (a + d) % WRAP == if a % WRAP + d < WRAP then a % WRAP + d else a % WRAP + d - WRAP
  {
  }

  /** PIPESIZE divides 2^32, so the slot of a byte does not depend on how often the counter wrapped. */
  lemma {:induction false} SlotOf(n: nat)
    ensures n % WRAP % PIPESIZE == n % PIPESIZE
  {
    assert n == WRAP * (n / WRAP) + n % WRAP;
  }

  lemma {:induction false} PushHolds(p: Ring, written: seq<byte>, taken: nat, x: byte)
    requires Holds(p, written, taken) && !Full(p)
    ensures Holds(Push(p, x), written + [x], taken)
  {
    TestsExact(p, written, taken);
    SlotOf(|written|);
    WrapAdd(|written|, 1);
    var q := Push(p, x);
    forall k | taken <= k < |written| ensures q.data[k % PIPESIZE] == written[k] {
      OtherSlot(k, |written|);
    }
  }

  lemma {:induction false} OtherSlot(k: nat, n: nat)
    requires k < n < k + PIPESIZE
    ensures k % PIPESIZE != n % PIPESIZE
  {
  }

  lemma {:induction false} PopHolds(p: Ring, written: seq<byte>, taken: nat)
    requires Holds(p, written, taken) && !Empty(p)
    ensures Front(p) == written[taken] && Holds(Pop(p), written, taken + 1)
  {
    TestsExact(p, written, taken);
    SlotOf(taken);
    WrapAdd(taken, 1);
  }

  // ---------- every interleaving of readers and writers ----------

  /** A write call in progress: its buffer and how far it has got. */
  datatype Call = Call(addr: seq<byte>, i: nat)

  /** `log` pairs each byte written with the call that wrote it; `got` is what readers received. */
  datatype Sys = Sys(pipe: Ring, calls: map<nat, Call>, log: seq<(nat, byte)>, got: seq<byte>)

  /** A step is one turn of a copying loop, or the start, failure or end of a call: a writer that
      sleeps in the middle of its buffer is one whose next turn comes late. */
  datatype Step =
    | StartWrite(c: nat, addr: seq<byte>)
    | WriteByte(c: nat)
    | EndWrite(c: nat)
    | ReadByte
    | Close(writable: bool)

  ghost predicate Enabled(s: Sys, l: Step) {
    match l
    case StartWrite(c, addr) => c !in s.calls && forall i | 0 <= i < |s.log| :: s.log[i].0 != c
    case WriteByte(c) => c in s.calls && s.calls[c].i < |s.calls[c].addr| && !Full(s.pipe)
    case EndWrite(c) => c in s.calls && (s.calls[c].i == |s.calls[c].addr| || Full(s.pipe))
    case ReadByte => !Empty(s.pipe)
    case Close(_) => true
  }

  ghost function Do(s: Sys, l: Step): (r: Sys)
    requires |s.pipe.data| == PIPESIZE && Enabled(s, l)
  {
    match l
    case StartWrite(c, addr) => s.(calls := s.calls[c := Call(addr, 0)])
    case WriteByte(c) =>
      var x := s.calls[c].addr[s.calls[c].i];
      s.(pipe := Push(s.pipe, x), calls := s.calls[c := Call(s.calls[c].addr, s.calls[c].i + 1)], log := s.log + [(c, x)])
    case EndWrite(c) => s.(calls := s.calls - {c})
    case ReadByte => s.(pipe := Pop(s.pipe), got := s.got + [Front(s.pipe)])
    case Close(w) => s.(pipe := if w then s.pipe.(writeopen := false) else s.pipe.(readopen := false))
  }

  ghost predicate Initial(s: Sys) {
    && |s.pipe.data| == PIPESIZE && s.pipe.nread == 0 && s.pipe.nwrite == 0
    && s.calls == map[] && s.log == [] && s.got == []
  }

  ghost predicate IsRun(run: seq<Sys>, steps: seq<Step>) {
    && |run| == |steps| + 1 && Initial(run[0])
    && forall i | 0 <= i < |steps| ::
         |run[i].pipe.data| == PIPESIZE && Enabled(run[i], steps[i]) && run[i + 1] == Do(run[i], steps[i])
  }

  ghost function BytesOf(log: seq<(nat, byte)>): (s: seq<byte>)
    ensures |s| == |log|
  {
    if log == [] then [] else BytesOf(log[..|log| - 1]) + [log[|log| - 1].1]
  }

  /** The bytes call c has written, in order. */
  ghost function By(log: seq<(nat, byte)>, c: nat): (s: seq<byte>) {
    if log == [] then []
    else By(log[..|log| - 1], c) + if log[|log| - 1].0 == c then [log[|log| - 1].1] else []
  }

  ghost predicate Inv(s: Sys) {
    && |s.got| <= |s.log| && Holds(s.pipe, BytesOf(s.log), |s.got|)
    && s.got == BytesOf(s.log)[..|s.got|]
    && forall c | c in s.calls :: s.calls[c].i <= |s.calls[c].addr| && By(s.log, c) == s.calls[c].addr[..s.calls[c].i]
  }

  lemma {:induction false} ByNobody(log: seq<(nat, byte)>, c: nat)
    requires forall i | 0 <= i < |log| :: log[i].0 != c
    ensures By(log, c) == []
  {
    if log != [] {
      ByNobody(log[..|log| - 1], c);
    }
  }

  lemma {:induction false} StepKeepsInv(s: Sys, l: Step)
    requires Inv(s) && Enabled(s, l)
    ensures Inv(Do(s, l))
  {
    var s' := Do(s, l);
    match l
    case StartWrite(c, addr) =>
      ByNobody(s.log, c);
      assert s'.calls[c].addr[..0] == [];
    case WriteByte(c) =>
      WriteKeepsInv(s, c);
    case EndWrite(c) =>
    case ReadByte =>
      PopHolds(s.pipe, BytesOf(s.log), |s.got|);
      assert BytesOf(s.log)[..|s.got| + 1] == BytesOf(s.log)[..|s.got|] + [BytesOf(s.log)[|s.got|]];
    case Close(w) =>
  }

  lemma {:induction false} WriteKeepsInv(s: Sys, c: nat)
    requires Inv(s) && Enabled(s, WriteByte(c))
    ensures Inv(Do(s, WriteByte(c)))
  {
    HoldsShape(s.pipe, BytesOf(s.log), |s.got|);
    hide Holds;
    var s' := Do(s, WriteByte(c));
    var x := s.calls[c].addr[s.calls[c].i];
    assert s'.log[..|s.log|] == s.log;
    PushHolds(s.pipe, BytesOf(s.log), |s.got|, x);
    assert BytesOf(s'.log) == BytesOf(s.log) + [x];
    assert BytesOf(s'.log)[..|s.got|] == BytesOf(s.log)[..|s.got|];
    var addr, i := s.calls[c].addr, s.calls[c].i;
    assert addr[..i + 1] == addr[..i] + [x];
  }

  /** First in, first out, for any number of readers and writers: at every moment of every run the
      bytes received are a prefix of the bytes written, in order; the ring never holds more than
      PIPESIZE bytes; and each call in progress has written exactly the beginning of its buffer. */
  lemma {:induction false} Fifo(run: seq<Sys>, steps: seq<Step>, i: nat)
    requires IsRun(run, steps) && i < |run|
    ensures Inv(run[i])
    ensures run[i].got <= BytesOf(run[i].log) && |BytesOf(run[i].log)| - |run[i].got| <= PIPESIZE
  {
    if i > 0 {
      Fifo(run, steps, i - 1);
      hide Do, Enabled, Inv;
      StepKeepsInv(run[i - 1], steps[i - 1]);
      InvPrefix(run[i]);
    }
  }

  lemma {:induction false} InvPrefix(s: Sys)
    requires Inv(s)
    ensures s.got <= BytesOf(s.log) && |BytesOf(s.log)| - |s.got| <= PIPESIZE
  {
  }

  // ---------- the code, one locked stretch at a time ----------

  datatype WriteStop = Done | Asleep | Error

  datatype ReadResult = ReadAsleep | ReadError | Got(bytes: seq<byte>)

  class PipeBuffer {
    const data: array<byte>
    var nread: uint32
    var nwrite: uint32
    var readopen: bool
    var writeopen: bool
    ghost var written: seq<byte>
    ghost var taken: nat

    ghost predicate Valid()
      reads this, data
    {
      data.Length == PIPESIZE && Holds(Value(), written, taken)
    }

    ghost function Value(): (p: Ring)
      reads this, data
    {
      Ring(data[..], nread, nwrite, readopen, writeopen)
    }

    /** pipealloc */
    constructor ()
      ensures Valid() && written == [] && taken == 0 && readopen && writeopen && fresh(data)
    {
      data := new byte[PIPESIZE](_ => 0);
      nread, nwrite, readopen, writeopen := 0, 0, true, true;
      written, taken := [], 0;
    }

    /** pipewrite from byte i0 on, until it finishes, fails or must sleep because the ring is full. */
    method Write(addr: seq<byte>, i0: nat, killed: bool) returns (i: nat, stop: WriteStop)
      requires Valid() && i0 <= |addr|
      modifies this`nwrite, this`written, data
      ensures Valid() && i0 <= i <= |addr| && written == old(written) + addr[i0..i]
      ensures stop.Done? <==> i == |addr|
      ensures !stop.Done? ==> |written| == taken + PIPESIZE && (stop.Error? <==> !readopen || killed)
    {
      i := i0;
      while i < |addr|
        invariant Valid() && i0 <= i <= |addr| && written == old(written) + addr[i0..i]
      {
        TestsExact(Value(), written, taken);
        if nwrite == (nread + PIPESIZE) % WRAP {
          if !readopen || killed {
            return i, Error;
          }
          return i, Asleep;
        }
        PushHolds(Value(), written, taken, addr[i]);
        ghost var next := Push(Value(), addr[i]);
        data[nwrite % PIPESIZE] := addr[i];
        nwrite := (nwrite + 1) % WRAP;
        assert Value() == next;
        written := written + [addr[i]];
        i := i + 1;
      }
      stop := Done;
    }

    /** piperead: sleeps or fails on an empty pipe with an open writer, else takes up to n bytes. */
    method Read(n: nat, killed: bool) returns (r: ReadResult)
      requires Valid()
      modifies this`nread, this`taken
      ensures Valid() && (r.Got? <==> |written| > old(taken) || !writeopen)
      ensures !r.Got? ==> unchanged(this) && (r.ReadError? <==> killed)
      ensures r.Got? ==> taken == old(taken) + |r.bytes| && r.bytes == written[old(taken)..taken]
      ensures r.Got? ==> |r.bytes| == if |written| - old(taken) < n then |written| - old(taken) else n
    {
      TestsExact(Value(), written, taken);
      if nread == nwrite && writeopen {
        return if killed then ReadError else ReadAsleep;
      }
      var i, bytes := 0, [];
      while i < n
        invariant Valid() && 0 <= i <= n && taken == old(taken) + i
        invariant bytes == written[old(taken)..taken]
      {
        TestsExact(Value(), written, taken);
        if nread == nwrite {
          break;
        }
        PopHolds(Value(), written, taken);
        ghost var next := Pop(Value());
        bytes := bytes + [data[nread % PIPESIZE]];
        nread := (nread + 1) % WRAP;
        taken := taken + 1;
        assert Value() == next;
        i := i + 1;
      }
      TestsExact(Value(), written, taken);
      r := Got(bytes);
    }

    /** pipeclose: the memory goes back when both ends are closed. */
    method Close(writable: bool) returns (freed: bool)
      requires Valid()
      modifies this`readopen, this`writeopen
      ensures Valid()
      ensures writeopen == (old(writeopen) && !writable) && readopen == (old(readopen) && writable)
      ensures freed <==> !readopen && !writeopen
    {
      if writable {
        writeopen := false;
      } else {
        readopen := false;
      }
      freed := !readopen && !writeopen;
    }
  }
}
