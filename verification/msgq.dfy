/** The message queue (modules/common/src/msgq.c): length-prefixed messages in a ring. */
module MsgQ {
  import opened Basics
  import opened Bits
  import opened RingBuf

  datatype Rc = OK | NOMEM | NOENT | RANGE | IO

  /** sizeof(msgq_msg_meta_t): a 32-bit size_t. */
  const META := 4

  type Message = m: seq<byte> | |m| < WORD

  /** The size, and then the message. */
  function Frame(m: Message): seq<byte> {
    PutWord(|m|) + m
  }

  /** The ring's contents for a queue of messages. */
  function Frames(msgs: seq<Message>): seq<byte> {
    if msgs == [] then [] else Frame(msgs[0]) + Frames(msgs[1..])
  }

  lemma {:induction false} FramesAppend(msgs: seq<Message>, m: Message)
    ensures Frames(msgs + [m]) == Frames(msgs) + Frame(m)
  {
    if msgs == [] {
      assert Frames([m]) == Frame(m) + Frames([]);
    } else {
      FramesAppend(msgs[1..], m);
      assert (msgs + [m])[1..] == msgs[1..] + [m];
    }
  }

  lemma FirstFrame(msgs: seq<Message>)
    requires msgs != []
    ensures var f, n := Frames(msgs), |msgs[0]|;
            && |f| >= META + n
            && f[..META] == PutWord(n) && f[META..META + n] == msgs[0]
            && f[META + n..] == Frames(msgs[1..])
  {
  }

  /** No two queues of messages have the same framing. */
  lemma {:induction false} FramesInjective(a: seq<Message>, b: seq<Message>)
    requires Frames(a) == Frames(b)
    ensures a == b
  {
    if a == [] || b == [] {
      assert |Frames(a)| > 0 || a == [];
      assert |Frames(b)| > 0 || b == [];
    } else {
      FirstFrame(a);
      FirstFrame(b);
      WordRoundTrip(|a[0]|);
      WordRoundTrip(|b[0]|);
      FramesInjective(a[1..], b[1..]);
      assert a == [a[0]] + a[1..] && b == [b[0]] + b[1..];
    }
  }

  /** msgq_calc_size */
  function CalcSize(n: nat, maxSize: nat): nat {
    SizeFor((META + maxSize) * n)
  }

  function SizeFor(requested: nat): nat {
    var bit := Fls(requested);
    Pow2(if IsPower2(requested) then (if bit == 0 then 0 else bit - 1) else bit)
  }

  lemma SizeForRounds(x: nat)
    ensures SizeFor(x) == RoundUpPow2(x) >= x
  {
    RoundUpPow2Least(x);
    if IsPower2(x) {
      var k := PowerWitness(x);
      FlsOfPow2(k);
    }
  }

  /** msgq_calc_size is the next power of two. */
  lemma CalcSizeRounds(n: nat, maxSize: nat)
    ensures CalcSize(n, maxSize) == RoundUpPow2((META + maxSize) * n)
    ensures CalcSize(n, maxSize) >= (META + maxSize) * n
  {
    SizeForRounds((META + maxSize) * n);
  }

  lemma {:induction false} FramesLength(msgs: seq<Message>, maxSize: nat)
    requires forall i :: 0 <= i < |msgs| ==> |msgs[i]| <= maxSize
    ensures |Frames(msgs)| <= (META + maxSize) * |msgs|
  {
    if msgs != [] {
      FramesLength(msgs[1..], maxSize);
      assert (META + maxSize) * |msgs| == (META + maxSize) * (|msgs| - 1) + (META + maxSize);
    }
  }

  class Queue {
    const ring: Ring
    ghost var msgs: seq<Message>

    ghost predicate Valid()
      reads this, ring, ring.buffer
    {
      ring.Valid() && ring.Contents() == Frames(msgs)
    }

    /** msgq_create */
    constructor (bytes: nat)
      requires 0 < bytes <= 0x8000_0000
      ensures Valid() && msgs == [] && fresh(ring) && fresh(ring.buffer)
      ensures ring.capacity >= bytes
    {
      ring := new Ring(bytes);
      msgs := [];
    }

    /**
     * push_message: the whole message or nothing. The sum in the guard is a 32-bit one, so the
     * I/O error, which rolls the ring back, is met exactly when that sum wraps and seems to fit.
     */
    method Push(data: Message) returns (rc: Rc)
      requires Valid()
      modifies this`msgs, ring, ring.buffer
      ensures Valid() && ring.buffer == old(ring.buffer) && ring.capacity == old(ring.capacity)
      ensures rc == OK <==> |Frames(old(msgs))| + META + |data| <= ring.capacity
      ensures rc == IO <==> |data| + META >= WORD && |Frames(old(msgs))| + |data| + META - WORD <= ring.capacity
      ensures rc == OK || rc == IO || rc == NOMEM
      ensures msgs == if rc == OK then old(msgs) + [data] else old(msgs)
    {
      ghost var was := ring.Contents();
      var available := ring.capacity - Minus(ring.index, ring.outdex);
      CapacityBelowWord(ring.bits);
      if Plus(|data|, META) > available {
        return NOMEM;
      }
      FramesAppend(msgs, data);
      var meta := PutWord(|data|);
      var n := ring.Write(meta);
      assert ring.Contents() == was + meta[..n];
      if n != META {
        var _ := ring.WriteCancel(n);
        assert ring.Contents() == was;
        return IO;
      }
      assert meta[..n] == meta;
      n := ring.Write(data);
      assert ring.Contents() == was + meta + data[..n];
      if n != |data| {
        var _ := ring.WriteCancel(n + META);
        assert ring.Contents() == was;
        return IO;
      }
      assert data[..n] == data;
      assert ring.Contents() == Frames(old(msgs)) + Frame(data);
      msgs := msgs + [data];
      return OK;
    }

    /** pop_message: the oldest message, when it fits the caller's buffer. */
    method Pop(size: nat) returns (rc: Rc, data: seq<byte>)
      requires Valid()
      modifies this`msgs, ring`outdex
      ensures Valid()
      ensures rc == if old(msgs) == [] then NOENT else if |old(msgs)[0]| > size then RANGE else OK
      ensures rc == OK ==> data == old(msgs)[0] && msgs == old(msgs)[1..]
      ensures rc != OK ==> msgs == old(msgs) && data == []
    {
      ghost var all := ring.Contents();
      var meta := ring.Peek(0, META);
      if |meta| != META {
        assert msgs == [] by {
          if msgs != [] { FirstFrame(msgs); }
        }
        return NOENT, [];
      }
      assert msgs != [];
      FirstFrame(msgs);
      WordRoundTrip(|msgs[0]|);
      assert meta == all[..META];
      var n := GetWord(meta);
      if n > size {
        return RANGE, [];
      }
      data := ring.Peek(META, n);
      assert data == if META >= |all| then [] else all[META..META + n];
      assert data == msgs[0];
      if |data| != n {
        assert false;
      }
      var _ := ring.Consume(META + n);
      msgs := msgs[1..];
      return OK, data;
    }

    /** msgq_available: how long a message may be. */
    method Available() returns (n: nat)
      requires Valid()
      ensures forall data: Message :: |data| > 0 ==> (|data| <= n <==> |Frames(msgs)| + META + |data| <= ring.capacity)
    {
      var free := ring.capacity - Minus(ring.index, ring.outdex);
      n := if free < META then 0 else free - META;
    }

    /** msgq_next_msg_size */
    method NextSize() returns (n: nat)
      requires Valid()
      ensures n == if msgs == [] then 0 else |msgs[0]|
    {
      ghost var all := ring.Contents();
      var meta := ring.Peek(0, META);
      if |meta| != META {
        assert msgs == [] by {
          if msgs != [] { FirstFrame(msgs); }
        }
        return 0;
      }
      FirstFrame(msgs);
      WordRoundTrip(|msgs[0]|);
      assert meta == all[..META];
      n := GetWord(meta);
    }
  }

  /** A queue sized by msgq_calc_size(n, maxSize) takes n messages of up to maxSize bytes. */
  method Fill(n: nat, maxSize: nat, batch: seq<Message>) returns (q: Queue, rcs: seq<Rc>)
    requires CalcSize(n, maxSize) <= 0x8000_0000
    requires |batch| == n && forall i :: 0 <= i < n ==> |batch[i]| <= maxSize
    ensures q.Valid() && q.msgs == batch
    ensures |rcs| == n && forall i :: 0 <= i < n ==> rcs[i] == OK
  {
    CalcSizeRounds(n, maxSize);
    q := new Queue(CalcSize(n, maxSize));
    rcs := [];
    var i := 0;
    while i < n
      invariant i <= n && q.Valid() && q.msgs == batch[..i] && fresh(q) && fresh(q.ring) && fresh(q.ring.buffer)
      invariant q.ring.capacity >= CalcSize(n, maxSize)
      invariant |rcs| == i && forall j :: 0 <= j < i ==> rcs[j] == OK
    {
      FramesLength(batch[..i], maxSize);
      assert (META + maxSize) * i + (META + maxSize) == (META + maxSize) * (i + 1);
      MulMonotone(META + maxSize, i + 1, n);
      var rc := q.Push(batch[i]);
      assert batch[..i + 1] == batch[..i] + [batch[i]];
      rcs := rcs + [rc];
      i := i + 1;
    }
    assert batch[..n] == batch;
  }
}
