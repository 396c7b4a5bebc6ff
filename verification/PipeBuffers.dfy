/** The ring buffer of a pipe: bytes come out in the order they went in, across wrap of the 32-bit positions. */
module PipeBuffers {
  import opened Machine
  import opened Counters

  const PIPE_BUF_SIZE: nat := 4096
  const WRAP: nat := 0x1_0000_0000
  const EPIPE: int := 32

  /** How a stretch of `pipe_read` ends: asleep with nothing read, or returning these bytes. */
  datatype ReadOutcome = ReadAsleep | Got(bytes: seq<u8>)

  /** How a stretch of `pipe_write` ends, with the number of bytes accepted so far. */
  datatype WriteOutcome = WriteAsleep(total: nat) | Returned(total: nat, ret: int)

  /** A stretch of a reader or a writer, one turn of either's loop, or a change of the counts. */
  datatype Op =
    | Read(size: u32)
    | Write(src: seq<u8>, total: nat)
    | GetByte
    | PutByte(b: u8)
    | Readers(n: u32)
    | Writers(n: u32)

  /** A pipe as its users see it. */
  datatype Stream = Stream(accepted: seq<u8>, delivered: seq<u8>, readers: u32, writers: u32)

  /** Readers have had, in order, the first of the bytes writers put, and at most a ringful is missing. */
  predicate InOrder(s: Stream) { s.delivered <= s.accepted && |s.accepted| <= |s.delivered| + PIPE_BUF_SIZE }

  function Waiting(s: Stream): (w: seq<u8>)
    ensures InOrder(s) ==> |w| <= PIPE_BUF_SIZE && s.accepted == s.delivered + w
  {
    if |s.delivered| <= |s.accepted| then s.accepted[|s.delivered|..] else []
  }

  /** The bytes a step takes in, and those it hands out. */
  function Taken(s: Stream, op: Op): seq<u8> {
    match op
    case Write(src, total) =>
      if total <= |src| < WRAP && s.readers != 0 && |Waiting(s)| <= PIPE_BUF_SIZE
      then src[total..][..Min(|src| - total, PIPE_BUF_SIZE - |Waiting(s)|)] else []
    case PutByte(b) => if |Waiting(s)| < PIPE_BUF_SIZE then [b] else []
    case _ => []
  }

  function Given(s: Stream, op: Op): seq<u8> {
    match op
    case Read(size) => Waiting(s)[..Min(size, |Waiting(s)|)]
    case GetByte => if Waiting(s) == [] then [] else Waiting(s)[..1]
    case _ => []
  }

  function After(s: Stream, op: Op): Stream {
    Stream(s.accepted + Taken(s, op), s.delivered + Given(s, op),
           if op.Readers? then op.n else s.readers, if op.Writers? then op.n else s.writers)
  }

  function AfterAll(s: Stream, ops: seq<Op>): Stream {
    if ops == [] then s else After(AfterAll(s, ops[..|ops| - 1]), ops[|ops| - 1])
  }

  /** All the bytes readers are handed over a run, in the order of the steps; and all that writers put. */
  function AllGiven(s: Stream, ops: seq<Op>): seq<u8> {
    if ops == [] then []
    else AllGiven(s, ops[..|ops| - 1]) + Given(AfterAll(s, ops[..|ops| - 1]), ops[|ops| - 1])
  }

  function AllTaken(s: Stream, ops: seq<Op>): seq<u8> {
    if ops == [] then []
    else AllTaken(s, ops[..|ops| - 1]) + Taken(AfterAll(s, ops[..|ops| - 1]), ops[|ops| - 1])
  }

  lemma StepInOrder(s: Stream, op: Op)
    requires InOrder(s)
    ensures InOrder(After(s, op))
  {
    var w, t, g := Waiting(s), Taken(s, op), Given(s, op);
    assert s.delivered + g <= s.accepted + t;
  }

  /** A waiting byte is handed out, the oldest first; a byte is taken as long as there is room. */
  lemma ByteSteps(s: Stream, b: u8)
    requires InOrder(s)
    ensures Waiting(s) != [] ==> Given(s, GetByte) == [Waiting(s)[0]] && Waiting(After(s, GetByte)) == Waiting(s)[1..]
    ensures |Waiting(s)| < 4096 ==> Waiting(After(s, PutByte(b))) == Waiting(s) + [b]
    ensures |Waiting(s)| == 4096 ==> After(s, PutByte(b)) == s
  {
    OneStep(s, GetByte);
    OneStep(s, PutByte(b));
    if Waiting(s) != [] { assert Waiting(s) == [Waiting(s)[0]] + Waiting(s)[1..]; }
  }

  /** First in, first out, over every interleaving: what readers were handed is a prefix of what was
      waiting and what writers put, and the rest fits in the ring. */
  lemma {:induction false} FirstInFirstOut(s: Stream, ops: seq<Op>)
    requires InOrder(s)
    ensures InOrder(AfterAll(s, ops))
    ensures Waiting(s) + AllTaken(s, ops) == AllGiven(s, ops) + Waiting(AfterAll(s, ops))
  {
    hide InOrder, Waiting, Given, Taken, After;
    if ops != [] {
      var before, op := ops[..|ops| - 1], ops[|ops| - 1];
      FirstInFirstOut(s, before);
      StepInOrder(AfterAll(s, before), op);
      OneStep(AfterAll(s, before), op);
      Regroup(Waiting(s), AllTaken(s, before), Taken(AfterAll(s, before), op), AllGiven(s, before),
              Waiting(AfterAll(s, before)), Given(AfterAll(s, before), op), Waiting(AfterAll(s, ops)));
    }
  }

  lemma Regroup(w: seq<u8>, taken: seq<u8>, t: seq<u8>, given: seq<u8>, mid: seq<u8>, g: seq<u8>, w': seq<u8>)
    requires w + taken == given + mid && mid + t == g + w'
    ensures w + (taken + t) == (given + g) + w'
  {
    assert w + (taken + t) == (w + taken) + t == given + (mid + t);
  }

  lemma OneStep(s: Stream, op: Op)
    requires InOrder(s)
    ensures Waiting(s) + Taken(s, op) == Given(s, op) + Waiting(After(s, op))
  {
    hide InOrder, Waiting, Given, Taken;
    StepInOrder(s, op);
    var s' := After(s, op);
    assert s'.accepted == s'.delivered + Waiting(s') && s.accepted == s.delivered + Waiting(s);
    FromDelivered(s.delivered, Waiting(s), Taken(s, op), Given(s, op), Waiting(s'));
  }

  lemma FromDelivered(d: seq<u8>, w: seq<u8>, t: seq<u8>, g: seq<u8>, w': seq<u8>)
    requires d + w + t == d + g + w'
    ensures w + t == g + w'
  {
    assert d + w + t == d + (w + t) && d + g + w' == d + (g + w');
    SamePrefix(d, w + t, g + w');
  }

  lemma SamePrefix(p: seq<u8>, a: seq<u8>, b: seq<u8>)
    requires p + a == p + b
    ensures a == b
  {
    assert (p + a)[|p|..] == a && (p + b)[|p|..] == b;
  }

  class PipeBuffer {
    const buf: array<u8>
    var head: u32
    var tail: u32
    var readers: u32
    var writers: u32
    ghost var accepted: seq<u8>
    ghost var delivered: seq<u8>

    /** Delivered bytes are a prefix of the accepted ones, and the rest, at most 4096, are in the ring. */
    ghost predicate Valid()
      reads this, buf
    {
      && delivered <= accepted
      && RingOf(buf[..], head, tail, accepted, |delivered|, PIPE_BUF_SIZE, WRAP)
    }

    ghost function Buffered(): seq<u8>
      reads this
    {
      if |delivered| <= |accepted| then accepted[|delivered|..] else []
    }

    /** `pipe_create` */
    constructor ()
      ensures Valid() && fresh(buf) && accepted == delivered == [] && readers == writers == 1
    {
      buf := new u8[PIPE_BUF_SIZE](_ => 0);
      head, tail, readers, writers := 0, 0, 1, 1;
      accepted, delivered := [], [];
    }

    lemma Level()
      requires Valid()
      ensures buf.Length == PIPE_BUF_SIZE && |Buffered()| <= PIPE_BUF_SIZE && accepted == delivered + Buffered()
      ensures head != tail <==> Buffered() != []
      ensures (head - tail) % WRAP == |Buffered()|
    {
      hide RingOf;
      RingPop(buf[..], head, tail, accepted, |delivered|, PIPE_BUF_SIZE, WRAP);
    }

    /** The byte a reader takes. */
    method Get() returns (b: u8)
      requires Valid() && Buffered() != []
      modifies this`tail, this`delivered
      ensures Valid() && b == old(Buffered())[0] && delivered == old(delivered) + [b]
    {
      hide RingOf;
      RingPop(buf[..], head, tail, accepted, |delivered|, PIPE_BUF_SIZE, WRAP);
      b := buf[tail % PIPE_BUF_SIZE];
      tail := (tail + 1) % WRAP;
      delivered := delivered + [b];
    }

    /** The byte a writer puts. */
    method Put(b: u8)
      requires Valid() && |Buffered()| < PIPE_BUF_SIZE
      modifies this`head, this`accepted, buf
      ensures Valid() && accepted == old(accepted) + [b] && Buffered() == old(Buffered()) + [b]
    {
      hide RingOf;
      RingPop(buf[..], head, tail, accepted, |delivered|, PIPE_BUF_SIZE, WRAP);
      RingPush(buf[..], head, tail, accepted, |delivered|, PIPE_BUF_SIZE, WRAP, b);
      ghost var ring := buf[..];
      buf[head % PIPE_BUF_SIZE] := b;
      assert buf[..] == ring[head % PIPE_BUF_SIZE := b];
      head := (head + 1) % WRAP;
      accepted := accepted + [b];
    }

    /** The unsigned test for room. */
    method HasRoom() returns (room: bool)
      requires Valid()
      ensures room <==> |Buffered()| < PIPE_BUF_SIZE
    {
      Level();
      room := (head - tail) % WRAP < PIPE_BUF_SIZE;
    }

    /** `pipe_read`, from its start or from a wake-up to its return or its sleep. */
    method ReadStretch(size: u32) returns (r: ReadOutcome)
      requires Valid()
      modifies this`tail, this`delivered
      ensures Valid()
      ensures r == ReadAsleep <==> size > 0 && old(Buffered()) == [] && writers > 0
      ensures r.Got? ==>
        r.bytes == old(Buffered())[..Min(size, |old(Buffered())|)] && delivered == old(delivered) + r.bytes
      ensures r.ReadAsleep? ==> delivered == old(delivered)
      ensures size > 0 ==> (r == Got([]) <==> old(Buffered()) == [] && writers == 0)
    {
      hide RingOf;
      var bytes: seq<u8> := [];
      ghost var all := Buffered();
      while |bytes| < size
        invariant Valid() && |bytes| <= size && |bytes| <= |all| && bytes == all[..|bytes|]
        invariant Buffered() == all[|bytes|..] && delivered == old(delivered) + bytes
        decreases size - |bytes|
      {
        Level();
        if head != tail {
          var b := Get();
          assert all[..|bytes| + 1] == all[..|bytes|] + [all[|bytes|]];
          bytes := bytes + [b];
        } else if writers == 0 {
          break;
        } else {
          if |bytes| > 0 { break; }
          return ReadAsleep;
        }
      }
      r := Got(bytes);
    }

    /** `pipe_write`, from its start or from a wake-up (with `done` bytes already accepted) to its return or its
        sleep. */
    method WriteStretch(src: seq<u8>, done: nat) returns (r: WriteOutcome)
      requires Valid() && done <= |src| < WRAP
      modifies this`head, this`accepted, buf
      ensures Valid() && done <= r.total <= |src| && accepted == old(accepted) + src[done..r.total]
      ensures r.total - done == if readers == 0 then 0 else Min(|src| - done, PIPE_BUF_SIZE - |old(Buffered())|)
      ensures r.WriteAsleep? <==> readers > 0 && |src| - done > PIPE_BUF_SIZE - |old(Buffered())|
      ensures r.Returned? ==> r.ret == if done < |src| && readers == 0 && done == 0 then -EPIPE else r.total
    {
      hide PipeBuffer.Valid, PipeBuffer.Buffered;
      var total := done;
      Level();
      assert src[done..done] == [];
      while total < |src|
        invariant Valid() && done <= total <= |src| && accepted == old(accepted) + src[done..total]
          && delivered == old(delivered)
        invariant |Buffered()| == |old(Buffered())| + total - done <= PIPE_BUF_SIZE
        invariant readers == 0 ==> total == done
        decreases |src| - total
      {
        if readers == 0 {
          return Returned(total, if total > 0 then total else -EPIPE);
        }
        var room := HasRoom();
        if room {
          Put(src[total]);
          assert src[done..total + 1] == src[done..total] + [src[total]];
          total := total + 1;
        } else {
          return WriteAsleep(total);
        }
      }
      r := Returned(total, total);
    }

    ghost function State(): Stream
      reads this
    {
      Stream(accepted, delivered, readers, writers)
    }

    method Step(op: Op) returns (given: seq<u8>)
      requires Valid()
      modifies this, buf
      ensures Valid() && InOrder(old(State())) && State() == After(old(State()), op) && given == Given(old(State()), op)
    {
      hide RingOf;
      Level();
      given := [];
      match op
      case Read(size) =>
        var r := ReadStretch(size);
        if r.Got? { given := r.bytes; }
      case Write(src, total) =>
        if total <= |src| < WRAP {
          var r := WriteStretch(src, total);
          assert src[total..][..r.total - total] == src[total..r.total];
        }
      case GetByte =>
        if head != tail {
          var b := Get();
          given := [b];
        }
      case PutByte(b) =>
        var room := HasRoom();
        if room { Put(b); }
      case Readers(n) => readers := n;
      case Writers(n) => writers := n;
    }

    /** Any interleaving of readers and writers, in whole stretches or byte by byte, and of changes of the
        counts. */
    method Run(ops: seq<Op>) returns (given: seq<u8>)
      requires Valid()
      modifies this, buf
      ensures Valid() && InOrder(State()) && State() == AfterAll(old(State()), ops)
        && given == AllGiven(old(State()), ops)
    {
      hide PipeBuffer.Valid, After, Given, Taken;
      given := [];
      Ordered();
      for i := 0 to |ops|
        invariant Valid() && InOrder(State()) && State() == AfterAll(old(State()), ops[..i])
          && given == AllGiven(old(State()), ops[..i])
      {
        var g := Step(ops[i]);
        Ordered();
        assert ops[..i + 1][..i] == ops[..i];
        given := given + g;
      }
      assert ops[..|ops|] == ops;
    }

    lemma Ordered()
      requires Valid()
      ensures InOrder(State())
    {
      Level();
    }
  }
}
