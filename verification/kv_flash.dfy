/** The two flash partitions behind the store, as the lm_flash interface shows them.
    Every operation may fail part-way; the device remembers which bytes were programmed
    since the last erase and, for the proofs, every state it went through. */
module KvFlash {
  import opened Basics
  import opened KvBytes

  /** What an erase or a write does: succeed, or fail after `done` bytes. */
  datatype Outcome = Ok | Fail(done: nat)

  /** Which bytes of a partition were programmed since its last erase. */
  type Marks = seq<bool>

  ghost predicate Blank(p: Marks, lo: nat, hi: nat) {
    forall i :: lo <= i < hi && i < |p| ==> !p[i]
  }

  /** q marks nothing beyond p and lo..hi. */
  ghost predicate Within(p: Marks, q: Marks, lo: nat, hi: nat) {
    |p| == |q| && forall i :: 0 <= i < |q| && q[i] ==> p[i] || lo <= i < hi
  }

  type Snapshot = seq<seq<byte>>

  /** `later` continues `earlier` through states whose bank b stays m. */
  ghost predicate Kept(earlier: seq<Snapshot>, later: seq<Snapshot>, b: nat, m: seq<byte>) {
    && earlier <= later
    && forall i :: |earlier| <= i < |later| ==> |later[i]| == 2 && b < 2 && later[i][b] == m
  }

  lemma KeptSame(x: seq<Snapshot>, b: nat, m: seq<byte>)
    ensures Kept(x, x, b, m)
  {
  }

  lemma KeptTransitive(x: seq<Snapshot>, y: seq<Snapshot>, z: seq<Snapshot>, b: nat, m: seq<byte>)
    requires Kept(x, y, b, m) && Kept(y, z, b, m)
    ensures Kept(x, z, b, m)
  {
    forall i | |x| <= i < |z| ensures |z[i]| == 2 && b < 2 && z[i][b] == m {
      if i < |y| {
        assert z[i] == y[i];
      }
    }
  }

  /** How many of n bytes the next operation gets done. */
  function Done(plan: seq<Outcome>, n: nat): (k: nat)
    ensures k <= n
  {
    if plan == [] || plan[0] == Ok || plan[0].done > n then n else plan[0].done
  }

  /** The first n bytes are erased. */
  function Blanked(m: seq<byte>, n: nat): (r: seq<byte>)
    requires n <= |m|
    ensures |r| == |m| && forall i :: 0 <= i < |m| ==> r[i] == if i < n then 255 else m[i]
  {
    seq(n, i => 255) + m[n..]
  }

  class Chip {
    var cells: seq<seq<byte>>
    /** What coming erases and writes do, and whether coming reads fail; all that are
        not listed succeed. */
    var plan: seq<Outcome>
    var badReads: seq<bool>
    ghost var programmed: seq<Marks>
    ghost var rewritten: bool
    ghost var trace: seq<Snapshot>

    ghost predicate Valid()
      reads this
    {
      |cells| == 2 && |programmed| == 2 && |programmed[0]| == |cells[0]| && |programmed[1]| == |cells[1]|
    }

    /** A device with the given contents, and the given bytes programmed since the last erase. */
    constructor (cells: seq<seq<byte>>, ghost programmed: seq<Marks>, plan: seq<Outcome>, badReads: seq<bool>)
      requires |cells| == 2 && |programmed| == 2
      requires |programmed[0]| == |cells[0]| && |programmed[1]| == |cells[1]|
      ensures Valid() && this.cells == cells && this.plan == plan && this.badReads == badReads
      ensures this.programmed == programmed && !rewritten && trace == []
    {
      this.cells, this.plan, this.badReads := cells, plan, badReads;
      this.programmed, rewritten, trace := programmed, false, [];
    }

    method NextOutcome() returns (o: Outcome)
      modifies this`plan
      ensures old(plan) == [] ==> o == Ok && plan == []
      ensures old(plan) != [] ==> o == old(plan)[0] && plan == old(plan)[1..]
    {
      if plan == [] {
        o := Ok;
      } else {
        o, plan := plan[0], plan[1..];
      }
    }

    /** lm_flash_read */
    method Read(bank: nat, at: nat, len: nat) returns (ok: bool, buf: seq<byte>)
      requires Valid() && bank < 2
      modifies this`badReads
      ensures ok ==> at + len <= |cells[bank]| && buf == cells[bank][at..at + len]
      ensures old(badReads) == [] ==> badReads == []
      ensures old(badReads) == [] && at + len <= |cells[bank]| ==> ok
      ensures old(badReads) != [] ==> badReads == old(badReads)[1..]
      ensures old(badReads) != [] && at + len <= |cells[bank]| ==> ok == !old(badReads)[0]
    {
      var bad := false;
      if badReads != [] {
        bad, badReads := badReads[0], badReads[1..];
      }
      if bad || at + len > |cells[bank]| {
        return false, [];
      }
      return true, cells[bank][at..at + len];
    }

    /** lm_flash_erase of a whole partition. */
    method Erase(bank: nat) returns (ok: bool)
      requires Valid() && bank < 2
      modifies this
      ensures Valid() && |cells[bank]| == |old(cells)[bank]|
      ensures cells[1 - bank] == old(cells)[1 - bank] && programmed[1 - bank] == old(programmed)[1 - bank]
      ensures ok <==> old(plan) == [] || old(plan)[0] == Ok
      ensures ok ==> Erased(cells[bank]) && Blank(programmed[bank], 0, |cells[bank]|)
      ensures rewritten == old(rewritten)
      ensures old(plan) == [] ==> plan == []
      ensures badReads == old(badReads)
      ensures Kept(old(trace), trace, 1 - bank, old(cells)[1 - bank])
      ensures old(plan) != [] ==> plan == old(plan)[1..]
      ensures cells[bank] == Blanked(old(cells)[bank], Done(old(plan), |cells[bank]|)) && trace == old(trace) + [cells]
      ensures old(plan) != [] && old(plan)[0] == Fail(0) ==> cells == old(cells)
    {
      var o := NextOutcome();
      var n := if o == Ok || o.done > |cells[bank]| then |cells[bank]| else o.done;
      assert n == 0 ==> Blanked(cells[bank], n) == cells[bank];
      cells := cells[bank := Blanked(cells[bank], n)];
      programmed := programmed[bank := seq(n, i => false) + programmed[bank][n..]];
      trace := trace + [cells];
      ok := o == Ok;
    }

    /** lm_flash_write */
    method Program(bank: nat, at: nat, data: seq<byte>) returns (ok: bool)
      requires Valid() && bank < 2
      modifies this
      ensures Valid() && |cells[bank]| == |old(cells)[bank]|
      ensures cells[1 - bank] == old(cells)[1 - bank] && programmed[1 - bank] == old(programmed)[1 - bank]
      ensures ok ==> at + |data| <= |old(cells)[bank]| && cells[bank] == Splice(old(cells)[bank], at, data)
      ensures cells[bank] ==
              if at + |data| > |old(cells)[bank]| then old(cells)[bank]
              else Splice(old(cells)[bank], at, data[..Done(old(plan), |data|)])
      ensures ok <==> at + |data| <= |old(cells)[bank]| && (old(plan) == [] || old(plan)[0] == Ok)
      ensures old(plan) == [] ==> plan == []
      ensures badReads == old(badReads)
      ensures old(plan) == [] && at + |data| <= |old(cells)[bank]| ==> ok
      ensures Within(old(programmed)[bank], programmed[bank], at, at + |data|)
      ensures Blank(old(programmed)[bank], at, at + |data|) ==> rewritten == old(rewritten)
      ensures Kept(old(trace), trace, 1 - bank, old(cells)[1 - bank])
    {
      var o := NextOutcome();
      if at + |data| > |cells[bank]| {
        return false;
      }
      var n := if o == Ok || o.done > |data| then |data| else o.done;
      ProgramBytes(bank, at, data[..n]);
      assert n == |data| ==> data[..n] == data;
      ok := o == Ok;
    }

    /** The bytes of one write, in order. */
    method ProgramBytes(bank: nat, at: nat, data: seq<byte>)
      requires Valid() && bank < 2 && at + |data| <= |cells[bank]|
      modifies this`cells, this`programmed, this`rewritten, this`trace
      ensures Valid()
      ensures cells[1 - bank] == old(cells)[1 - bank] && programmed[1 - bank] == old(programmed)[1 - bank]
      ensures cells[bank] == Splice(old(cells)[bank], at, data)
      ensures Within(old(programmed)[bank], programmed[bank], at, at + |data|)
      ensures Blank(old(programmed)[bank], at, at + |data|) ==> rewritten == old(rewritten)
      ensures Kept(old(trace), trace, 1 - bank, old(cells)[1 - bank])
    {
      assert Splice(cells[bank], at, data[..0]) == cells[bank];
      var i := 0;
      while i < |data|
        invariant i <= |data| && Valid()
        invariant cells[1 - bank] == old(cells)[1 - bank] && programmed[1 - bank] == old(programmed)[1 - bank]
        invariant cells[bank] == Splice(old(cells)[bank], at, data[..i])
        invariant Within(old(programmed)[bank], programmed[bank], at, at + i)
        invariant Blank(old(programmed)[bank], at, at + |data|) ==> rewritten == old(rewritten)
        invariant Kept(old(trace), trace, 1 - bank, old(cells)[1 - bank])
      {
        rewritten := rewritten || programmed[bank][at + i];
        SpliceByte(old(cells)[bank], at, data, i);
        cells := cells[bank := cells[bank][at + i := data[i]]];
        programmed := programmed[bank := programmed[bank][at + i := true]];
        trace := trace + [cells];
        i := i + 1;
      }
      assert data[..i] == data;
    }
  }

  lemma SpliceByte(m: seq<byte>, at: nat, data: seq<byte>, i: nat)
    requires at + |data| <= |m| && i < |data|
    ensures Splice(m, at, data[..i])[at + i := data[i]] == Splice(m, at, data[..i + 1])
  {
  }
}
