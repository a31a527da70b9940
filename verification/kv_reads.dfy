/** Failing reads of the flash, and which of them move_partition of ports/kvstore/flash_kvstore.c meets where. */
module KvReads {
  import opened KvLog
  import opened KvBytes
  import opened KvCompact

  // ---------------------------------------------------------------------- lists of reads

  /** How many reads succeed before the first that fails. */
  function Fault(bad: seq<bool>): (n: nat)
    ensures n <= |bad| && (forall i :: 0 <= i < n ==> !bad[i]) && (n < |bad| ==> bad[n])
  {
    if bad == [] || bad[0] then 0 else 1 + Fault(bad[1..])
  }

  /** One of the next n reads fails. */
  predicate Hit(bad: seq<bool>, n: nat) {
    Fault(bad) < |bad| && Fault(bad) < n
  }

  /** What is left of the list after n reads. */
  function Passed(bad: seq<bool>, n: nat): seq<bool> {
    if n <= |bad| then bad[n..] else []
  }

  /** No read fails. */
  ghost predicate Quiet(bad: seq<bool>) {
    forall i :: 0 <= i < |bad| ==> !bad[i]
  }

  /** How many reads fail. */
  function Failures(bad: seq<bool>): nat {
    if bad == [] then 0 else (if bad[0] then 1 else 0) + Failures(bad[1..])
  }

  /** `now` is what is left of the list after some reads. */
  ghost predicate Tail(bad: seq<bool>, now: seq<bool>) {
    |now| <= |bad| && now == bad[|bad| - |now|..]
  }

  lemma HitStep(bad: seq<bool>, k: nat, k': nat)
    requires !Hit(bad, k) && k' == k + 1
    ensures Hit(bad, k') <==> Hit(Passed(bad, k), 1)
    ensures Hit(bad, k') ==> Fault(bad) == k
    ensures Passed(Passed(bad, k), 1) == Passed(bad, k')
  {
    HitSplit(bad, k, 1, k');
  }

  lemma HitNone(bad: seq<bool>)
    ensures !Hit(bad, 0) && Passed(bad, 0) == bad
  {
  }

  lemma HitMore(bad: seq<bool>, k: nat, n: nat)
    requires k <= n
    ensures Hit(bad, k) ==> Hit(bad, n)
  {
  }

  lemma PassedOne(bad: seq<bool>)
    ensures Passed(bad, 1) == if bad == [] then [] else bad[1..]
    ensures Hit(bad, 1) <==> bad != [] && bad[0]
  {
  }

  /** First a reads and then b. */
  lemma HitSplit(bad: seq<bool>, a: nat, b: nat, n: nat)
    requires n == a + b
    ensures Hit(bad, n) <==> Hit(bad, a) || Hit(Passed(bad, a), b)
    ensures Passed(Passed(bad, a), b) == Passed(bad, n)
  {
    var rest := Passed(bad, a);
    if !Hit(bad, a) && a <= |bad| {
      FaultAfter(bad, a);
    }
  }

  lemma FaultAfter(bad: seq<bool>, a: nat)
    requires a <= Fault(bad)
    ensures Fault(Passed(bad, a)) == Fault(bad) - a
  {
    var rest, m := Passed(bad, a), Fault(bad) - a;
    assert forall i :: 0 <= i < m ==> !rest[i];
    assert m < |rest| ==> rest[m];
  }

  lemma TailPassed(bad: seq<bool>, n: nat)
    ensures Tail(bad, Passed(bad, n)) && Tail(bad, bad)
  {
  }

  lemma TailOn(a: seq<bool>, b: seq<bool>, c: seq<bool>)
    requires Tail(a, b) && Tail(b, c)
    ensures Tail(a, c)
  {
  }

  lemma TailQuiet(bad: seq<bool>, now: seq<bool>)
    requires Tail(bad, now)
    ensures (Quiet(bad) ==> Quiet(now)) && (bad == [] ==> now == [])
  {
  }

  lemma QuietHits(bad: seq<bool>, n: nat)
    requires Quiet(bad)
    ensures !Hit(bad, n) && Quiet(Passed(bad, n))
  {
  }

  lemma {:induction false} QuietIsNone(bad: seq<bool>)
    ensures Quiet(bad) <==> Failures(bad) == 0
  {
    if bad != [] {
      QuietIsNone(bad[1..]);
      assert forall i :: 0 < i < |bad| ==> bad[i] == bad[1..][i - 1];
      assert Quiet(bad) <==> !bad[0] && Quiet(bad[1..]);
    }
  }

  /** Reads up to and with a failing one. */
  lemma {:induction false} FailuresPassed(bad: seq<bool>, n: nat)
    ensures Failures(Passed(bad, n)) <= Failures(bad)
    ensures Hit(bad, n) ==> Failures(Passed(bad, n)) < Failures(bad)
  {
    if n > 0 && bad != [] {
      assert Passed(bad, n) == Passed(bad[1..], n - 1);
      FailuresPassed(bad[1..], n - 1);
      if Hit(bad, n) && !bad[0] {
        FaultAfter(bad, 1);
      }
    }
  }

  /** The chunks of a value. */
  function Chunks(len: nat): nat {
    Align(len) / 16
  }

  /** The list after a search that begins with it. */
  function Searched(bad: seq<bool>, slots: nat): seq<bool> {
    Passed(bad, if Hit(bad, slots) then Fault(bad) + 1 else slots)
  }

  lemma SearchedIs(bad: seq<bool>, slots: nat)
    ensures Tail(bad, Searched(bad, slots)) && Tail(bad, bad)
    ensures !Hit(bad, slots) ==> Searched(bad, slots) == Passed(bad, slots)
  {
  }

  lemma QuietSearch(bad: seq<bool>, slots: nat)
    requires Quiet(bad)
    ensures !Hit(bad, slots) && Quiet(Searched(bad, slots)) && (bad == [] ==> Searched(bad, slots) == [])
  {
  }

  lemma QuietEmpty(n: nat)
    ensures Quiet([]) && !Hit([], n) && Passed([], n) == [] && Searched([], n) == []
  {
  }

  lemma EmptyPassed(bad: seq<bool>, n: nat)
    ensures bad == [] ==> Passed(bad, n) == []
  {
  }

  lemma SearchFails(bad: seq<bool>, slots: nat)
    ensures Failures(Searched(bad, slots)) + (if Hit(bad, slots) then 1 else 0) <= Failures(bad)
  {
    FailuresPassed(bad, if Hit(bad, slots) then Fault(bad) + 1 else slots);
  }

  /** That many reads that succeed. */
  function Falses(n: nat): (r: seq<bool>)
    ensures |r| == n && forall i :: 0 <= i < n ==> !r[i]
  {
    seq(n, i => false)
  }

  lemma FalsesPass(n: nat, m: nat, rest: seq<bool>, left: nat)
    requires n == m + left
    ensures !Hit(Falses(n) + rest, m) && Passed(Falses(n) + rest, m) == Falses(left) + rest
    ensures Searched(Falses(n) + rest, m) == Falses(left) + rest
  {
  }

  lemma FalsesNone(rest: seq<bool>)
    ensures Falses(0) + rest == rest
  {
  }

  lemma FalsesJoin(a: nat, b: nat, n: nat, rest: seq<bool>)
    requires n == a + b
    ensures Falses(n) + rest == Falses(a) + (Falses(b) + rest)
  {
  }

  lemma {:induction false} FalsesFail(n: nat, rest: seq<bool>)
    ensures Failures(Falses(n) + rest) == Failures(rest)
  {
    if n == 0 {
      FalsesNone(rest);
    } else {
      FalsesFail(n - 1, rest);
      assert (Falses(n) + rest)[1..] == Falses(n - 1) + rest;
    }
  }
}
