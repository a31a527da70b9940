/**
 * The persistent metric queue (modules/metrics/src/metricfs.c): metrics under 16-bit ids in a
 * key-value store, between an outdex and an index that are stored beside them.
 */
module MetricQueue {
  import opened Basics

  type Id = x: nat | x < 65536

  datatype Key = IndexKey | OutdexKey | MetricKey(id: Id)

  type Store = map<Key, seq<byte>>

  // ------------------------------------------------------------------- ids and keys

  /** metricfs_id_t wraps. */
  function Wrap(n: nat): Id {
    if n < 65536 then n else Wrap(n - 65536)
  }

  function Next(id: Id): (r: Id) {
    if id == 65535 then 0 else id + 1
  }

  /** count_metrics */
  function Count(index: Id, outdex: Id): (n: nat)
    ensures n < 65536
  {
    if outdex <= index then index - outdex else index + 65536 - outdex
  }

  lemma {:induction false} WrapCounts(head: nat, tail: nat)
    requires head <= tail <= head + 65535
    ensures Count(Wrap(tail), Wrap(head)) == tail - head
  {
    if head >= 65536 {
      WrapCounts(head - 65536, tail - 65536);
    }
  }

  lemma {:induction false} WrapNext(n: nat)
    ensures Wrap(n + 1) == Next(Wrap(n))
  {
    if n >= 65536 {
      WrapNext(n - 65536);
    }
  }

  lemma WrapDistinct(i: nat, j: nat)
    requires i < j < i + 65536
    ensures Wrap(i) != Wrap(j)
  {
    WrapCounts(i, j);
  }

  function PutId(id: Id): seq<byte> {
    [id % 256, id / 256]
  }

  /** read_index, read_outdex: a missing one is 0. */
  function GetId(s: Store, k: Key): Id {
    if k in s && |s[k]| == 2 then
      var low: nat, high: nat := s[k][0], s[k][1];
      low + 256 * high
    else 0
  }

  lemma GetPut(s: Store, k: Key, id: Id)
    ensures GetId(s[k := PutId(id)], k) == id
  {
  }

  // ---------------------------------------------------------------- what a store recovers

  function MetricAt(s: Store, id: Id): Option<seq<byte>> {
    if MetricKey(id) in s then Some(s[MetricKey(id)]) else None
  }

  /** What metricfs_create and reads of the ids from outdex on find in a store. */
  function Recovered(s: Store): seq<Option<seq<byte>>> {
    Metrics(s, GetId(s, OutdexKey), Count(GetId(s, IndexKey), GetId(s, OutdexKey)))
  }

  function Metrics(s: Store, from: Id, n: nat): seq<Option<seq<byte>>>
    decreases n
  {
    if n == 0 then [] else [MetricAt(s, from)] + Metrics(s, Next(from), n - 1)
  }

  /** A store without the two counters is an empty queue, whatever else it holds; one without an outdex begins at id 0;
      and counters that are there are read with the low byte first. */
  lemma FreshStore(s: Store)
    ensures IndexKey !in s && OutdexKey !in s ==> Recovered(s) == []
    ensures OutdexKey !in s && Recovered(s) != [] ==> Recovered(s)[0] == MetricAt(s, 0)
    ensures forall out: Id, index: Id :: out <= index ==>
              |Recovered(s[OutdexKey := [out % 256, out / 256]][IndexKey := [index % 256, index / 256]])| == index - out
  {
    forall out: Id, index: Id | out <= index
      ensures |Recovered(s[OutdexKey := [out % 256, out / 256]][IndexKey := [index % 256, index / 256]])| == index - out
    {
      var s' := s[OutdexKey := [out % 256, out / 256]][IndexKey := [index % 256, index / 256]];
      MetricsCount(s', out, index - out);
    }
  }

  lemma {:induction false} MetricsCount(s: Store, from: Id, n: nat)
    ensures |Metrics(s, from, n)| == n
    decreases n
  {
    if n > 0 {
      MetricsCount(s, Next(from), n - 1);
    }
  }

  /**
   * What has happened to a queue. `log` holds all metrics ever committed; those at the positions in `cleared`
   * have been taken from the store. The queue in memory begins at position `at`, the stored outdex is that
   * of position `out`.
   */
  datatype Past = Past(log: seq<seq<byte>>, cleared: set<nat>, at: nat, out: nat)

  /** The store holds what that past leaves. An id stands for the last position that took it. */
  ghost predicate Account(s: Store, p: Past) {
    && p.out <= p.at <= |p.log| <= p.at + 65535
    && (forall i :: i in p.cleared ==> i < |p.log|)
    && GetId(s, IndexKey) == Wrap(|p.log|) && GetId(s, OutdexKey) == Wrap(p.out)
    && (forall i :: p.out <= i < |p.log| <= i + 65535 ==> MetricAt(s, Wrap(i)) == Expected(p, i))
  }

  function Expected(p: Past, i: nat): Option<seq<byte>>
    requires i < |p.log|
  {
    if i in p.cleared then None else Some(p.log[i])
  }

  /** The position at which a queue begins that is read back from the store: that of the stored outdex, or
      so many laps later that the index is less than a lap away. */
  function Resumed(out: nat, len: nat): (r: nat)
    requires out <= len
    ensures out <= r <= len <= r + 65535 && Wrap(r) == Wrap(out)
    decreases len - out
  {
    if len <= out + 65535 then out else Resumed(out + 65536, len)
  }

  function Start(p: Past): nat
    requires p.out <= |p.log|
  {
    Resumed(p.out, |p.log|)
  }

  /** The metrics from position i on. */
  function Listing(p: Past, i: nat): seq<Option<seq<byte>>>
    requires i <= |p.log|
    decreases |p.log| - i
  {
    if i == |p.log| then [] else [Expected(p, i)] + Listing(p, i + 1)
  }

  lemma {:induction false} ListingAt(p: Past, i: nat, k: nat)
    requires i <= |p.log| && k < |p.log| - i
    ensures |Listing(p, i)| == |p.log| - i && Listing(p, i)[k] == Expected(p, i + k)
    decreases |p.log| - i
  {
    if i + 1 < |p.log| {
      ListingAt(p, i + 1, if k > 0 then k - 1 else 0);
    }
  }

  lemma {:induction false} MetricsFrom(s: Store, p: Past, i: nat)
    requires Account(s, p) && p.out <= i <= |p.log| <= i + 65535
    ensures Metrics(s, Wrap(i), |p.log| - i) == Listing(p, i)
    decreases |p.log| - i
  {
    if i < |p.log| {
      MetricsFrom(s, p, i + 1);
      WrapNext(i);
      assert MetricAt(s, Wrap(i)) == Expected(p, i);
    }
  }

  /** The ids that are missing come first. */
  ghost predicate MissingFirst(found: seq<Option<seq<byte>>>) {
    forall i, j :: 0 <= i < j < |found| && found[j].None? ==> found[i].None?
  }

  /** Of the positions that are read back the cleared ones come first. */
  ghost predicate Ordered(p: Past)
    requires p.out <= |p.log|
  {
    forall x, y :: Start(p) <= x < y < |p.log| && y in p.cleared ==> x in p.cleared
  }

  /** After a crash: the metrics from the stored outdex on, and the missing ids come first exactly if the
      cleared positions do. */
  lemma CrashRecovers(s: Store, p: Past)
    requires Account(s, p)
    ensures Recovered(s) == Listing(p, Start(p))
    ensures MissingFirst(Recovered(s)) <==> Ordered(p)
  {
    WrapCounts(Start(p), |p.log|);
    MetricsFrom(s, p, Start(p));
    MissingThere(p, Start(p), Recovered(s));
  }

  lemma MissingThere(p: Past, from: nat, found: seq<Option<seq<byte>>>)
    requires from <= |p.log| && found == Listing(p, from)
    ensures MissingFirst(found) <==> forall x, y :: from <= x < y < |p.log| && y in p.cleared ==> x in p.cleared
  {
    if from < |p.log| {
      ListingAt(p, from, 0);
    }
    forall x | from <= x < |p.log| ensures found[x - from].None? <==> x in p.cleared {
      ListingAt(p, from, x - from);
    }
    if MissingFirst(found) {
      forall x, y | from <= x < y < |p.log| && y in p.cleared ensures x in p.cleared {
        assert found[y - from].None? && found[x - from].None?;
      }
    } else {
      var i, j :| 0 <= i < j < |found| && found[j].None? && !found[i].None?;
      var x, y := from + i, from + j;
      assert found[y - from].None? && !found[x - from].None?;
      assert from <= x < y < |p.log| && y in p.cleared && x !in p.cleared;
    }
  }

  /** The queue in memory is read back, and of what comes before it nothing is left. */
  ghost predicate Tidy(p: Past)
    requires p.out <= |p.log|
  {
    Start(p) <= p.at && Ordered(p) && forall x :: Start(p) <= x < p.at && x < |p.log| ==> x in p.cleared
  }

  function Nones(n: nat): seq<Option<seq<byte>>> {
    if n == 0 then [] else [None] + Nones(n - 1)
  }

  function Somes(log: seq<seq<byte>>): seq<Option<seq<byte>>> {
    if log == [] then [] else [Some(log[0])] + Somes(log[1..])
  }

  /** The first position from i on that is not cleared. */
  function FirstLeft(p: Past, i: nat): (r: nat)
    requires i <= |p.log|
    ensures i <= r <= |p.log| && (forall x :: i <= x < r ==> x in p.cleared) && (r < |p.log| ==> r !in p.cleared)
    decreases |p.log| - i
  {
    if i < |p.log| && i in p.cleared then FirstLeft(p, i + 1) else i
  }

  /** Then what is read back is a run of missing ids and after it every metric that was committed and not
      deleted, unchanged. */
  lemma TidyRecovers(s: Store, p: Past)
    requires Account(s, p) && Tidy(p)
    ensures Recovered(s) == Nones(FirstLeft(p, p.at) - Start(p)) + Somes(p.log[FirstLeft(p, p.at)..])
  {
    CrashRecovers(s, p);
    ListsCleared(p, Start(p), FirstLeft(p, Start(p)));
    ListsLeft(p, FirstLeft(p, Start(p)));
    SameFirst(p, Start(p), p.at);
  }

  lemma {:induction false} SameFirst(p: Past, i: nat, j: nat)
    requires i <= j <= |p.log| && forall x :: i <= x < j ==> x in p.cleared
    ensures FirstLeft(p, i) == FirstLeft(p, j)
    decreases j - i
  {
    if i < j {
      SameFirst(p, i + 1, j);
    }
  }

  lemma {:induction false} ListsLeft(p: Past, i: nat)
    requires i <= |p.log| && forall x :: i <= x < |p.log| ==> x !in p.cleared
    ensures Listing(p, i) == Somes(p.log[i..])
    decreases |p.log| - i
  {
    if i < |p.log| {
      ListsLeft(p, i + 1);
      assert p.log[i..][1..] == p.log[i + 1..];
    } else {
      assert p.log[i..] == [];
    }
  }

  lemma {:induction false} ListsCleared(p: Past, i: nat, first: nat)
    requires i <= first <= |p.log| && forall x :: i <= x < first ==> x in p.cleared
    ensures Listing(p, i) == Nones(first - i) + Listing(p, first)
    decreases first - i
  {
    if i < first {
      ListsCleared(p, i + 1, first);
      var rest := Listing(p, first);
      assert [None] + Nones(first - i - 1) + rest == [None] + (Nones(first - i - 1) + rest);
    } else {
      assert Nones(0) + Listing(p, first) == Listing(p, first);
    }
  }

  /** All of the queue in memory is read back exactly if the stored outdex is at least as far from the index
      as the one in memory. */
  lemma NothingForgotten(p: Past)
    requires p.out <= p.at <= |p.log| <= p.at + 65535
    ensures Start(p) <= p.at <==> Count(Wrap(|p.log|), Wrap(p.out)) >= Count(Wrap(|p.log|), Wrap(p.at))
    ensures |p.log| <= p.out + 65535 ==> Start(p) == p.out
  {
    WrapCounts(Start(p), |p.log|);
    WrapCounts(p.at, |p.log|);
  }

  lemma CountIs(s: Store, p: Past)
    requires Account(s, p)
    ensures p.out <= p.at <= |p.log| <= p.at + 65535 && Count(Wrap(|p.log|), Wrap(p.at)) == |p.log| - p.at
  {
    WrapCounts(p.at, |p.log|);
  }

  lemma HeldAt(s: Store, p: Past, i: nat)
    requires Account(s, p) && p.at <= i < |p.log|
    ensures MetricAt(s, Wrap(i)) == Expected(p, i) && Wrap(i + 1) == Next(Wrap(i))
  {
    WrapNext(i);
  }

  /** Every store has an account. */
  lemma EveryStore(s: Store) returns (p: Past)
    ensures Account(s, p) && p.at == p.out
  {
    var out: nat := GetId(s, OutdexKey);
    var n := Count(GetId(s, IndexKey), GetId(s, OutdexKey));
    var value := (i: nat) => if MetricKey(Wrap(i)) in s then s[MetricKey(Wrap(i))] else [];
    var missing := set i: nat | i < out + n && MetricKey(Wrap(i)) !in s;
    p := Past(seq(out + n, value), missing, out, out);
  }

  // ------------------------------------------------------------------ single operations

  /** A metric is written under the next id, not committed yet. */
  lemma Uncommitted(s: Store, p: Past, data: seq<byte>)
    requires Account(s, p)
    ensures Account(s[MetricKey(Wrap(|p.log|)) := data], p)
  {
    var s' := s[MetricKey(Wrap(|p.log|)) := data];
    forall i | p.out <= i < |p.log| <= i + 65535 ensures MetricAt(s', Wrap(i)) == Expected(p, i) {
      WrapDistinct(i, |p.log|);
      assert MetricAt(s, Wrap(i)) == Expected(p, i);
    }
  }

  /** One more metric; a queue that then holds 65536 is an empty one. */
  function Pushed(p: Past, data: seq<byte>): Past {
    p.(log := p.log + [data], at := if |p.log| < p.at + 65535 then p.at else |p.log| + 1)
  }

  /** The index is moved past a metric that is there: it is committed. */
  lemma Committed(s: Store, p: Past, data: seq<byte>)
    requires Account(s, p) && MetricAt(s, Wrap(|p.log|)) == Some(data)
    ensures Account(s[IndexKey := PutId(Next(Wrap(|p.log|)))], Pushed(p, data))
    ensures Wrap(Pushed(p, data).at) == Wrap(p.at) && Wrap(|p.log| + 1) == Next(Wrap(|p.log|))
  {
    var s', p' := s[IndexKey := PutId(Next(Wrap(|p.log|)))], Pushed(p, data);
    WrapNext(|p.log|);
    GetPut(s, IndexKey, Next(Wrap(|p.log|)));
    assert |p.log| == p.at + 65535 ==> Wrap(p.at + 65536) == Wrap(p.at);
    forall i | p'.out <= i < |p'.log| <= i + 65535 ensures MetricAt(s', Wrap(i)) == Expected(p', i) {
      if i < |p.log| {
        assert MetricAt(s, Wrap(i)) == Expected(p, i);
      }
    }
  }

  function Cleared(p: Past, i: nat): Past {
    p.(cleared := p.cleared + {i})
  }

  /** One id is cleared. */
  lemma ClearedOne(s: Store, p: Past, i: nat)
    requires Account(s, p) && p.at <= i < |p.log|
    ensures Account(s - {MetricKey(Wrap(i))}, Cleared(p, i))
  {
    var s', p' := s - {MetricKey(Wrap(i))}, Cleared(p, i);
    forall j | p'.out <= j < |p'.log| <= j + 65535 ensures MetricAt(s', Wrap(j)) == Expected(p', j) {
      assert MetricAt(s, Wrap(j)) == Expected(p, j);
      if i < j {
        WrapDistinct(i, j);
      } else if j < i {
        WrapDistinct(j, i);
      }
    }
  }

  /** The outdex is moved, in memory and in the store. */
  function Moved(p: Past, to: nat): Past {
    p.(at := to, out := to)
  }

  lemma OutdexMoved(s: Store, p: Past, to: nat)
    requires Account(s, p) && p.at <= to <= |p.log|
    ensures Account(s[OutdexKey := PutId(Wrap(to))], Moved(p, to))
  {
    GetPut(s, OutdexKey, Wrap(to));
    var s' := s[OutdexKey := PutId(Wrap(to))];
    forall i | to <= i < |p.log| <= i + 65535 ensures MetricAt(s', Wrap(i)) == Expected(p, i) {
      assert MetricAt(s, Wrap(i)) == Expected(p, i);
    }
  }

  // --------------------------------------------------------------- what keeps a queue tidy

  /** With one more metric the queue is read back from the same position, or it is a lap and reads as empty. */
  lemma {:induction false} ResumedNext(out: nat, len: nat)
    requires out <= len
    ensures Resumed(out, len + 1) == if len < Resumed(out, len) + 65535 then Resumed(out, len) else len + 1
    decreases len - out
  {
    if len > out + 65535 {
      ResumedNext(out + 65536, len);
    }
  }

  /** One more metric leaves the index less than a lap from where the queue is read back, or that is where the
      queue in memory begins. */
  ghost predicate Roomy(p: Past)
    requires p.out <= |p.log|
  {
    |p.log| < Start(p) + 65535 || Start(p) == p.at
  }

  /** Deletes keep a queue tidy, and a write does exactly if there is room for it. */
  lemma TidyKept(p: Past, data: seq<byte>)
    requires p.out <= p.at <= |p.log| <= p.at + 65535 && (forall i :: i in p.cleared ==> i < |p.log|) && Tidy(p)
    ensures Tidy(Pushed(p, data)) <==> Roomy(p)
    ensures p.at < |p.log| ==> Tidy(Cleared(p, p.at)) && Tidy(Moved(Cleared(p, p.at), p.at + 1))
  {
    ResumedNext(p.out, |p.log|);
  }

  // ------------------------------------------------------------- metricfs_clear and its failures

  /** The i-th coming operation of the store fails. */
  predicate Fails(plan: seq<bool>, i: nat) {
    i < |plan| && plan[i]
  }

  /** After the first i clears of metricfs_clear. */
  function ClearedBy(p: Past, plan: seq<bool>, i: nat): Past {
    if i == 0 then p
    else
      var q := ClearedBy(p, plan, i - 1);
      (if Fails(plan, i - 1) then q else Cleared(q, q.at)).(at := q.at + 1)
  }

  lemma {:induction false} ClearedByMeans(p: Past, plan: seq<bool>, i: nat)
    ensures var q := ClearedBy(p, plan, i);
            && q.log == p.log && q.out == p.out && q.at == p.at + i
            && forall x: nat :: x in q.cleared <==> x in p.cleared || (x < p.at + i && Goes(p, plan, x))
  {
    if i > 0 {
      ClearedByMeans(p, plan, i - 1);
    }
  }

  /** Position x is there after all clears. */
  predicate Stays(p: Past, plan: seq<bool>, x: nat) {
    x !in p.cleared && (x < p.at || Fails(plan, x - p.at))
  }

  /** There is a clear for position x and it does not fail. */
  predicate Goes(p: Past, plan: seq<bool>, x: nat) {
    p.at <= x && !Fails(plan, x - p.at)
  }

  /** No metric that stays comes before one that a clear succeeds for. */
  ghost predicate NoHole(p: Past, plan: seq<bool>)
    requires p.out <= |p.log|
  {
    forall x, y :: Start(p) <= x < y < |p.log| && Stays(p, plan, x) ==> !Goes(p, plan, y)
  }

  /** The missing ids come first at every moment of metricfs_clear exactly if no failing clear comes before a
      succeeding one. */
  lemma ClearInOrder(p: Past, plan: seq<bool>)
    requires p.out <= p.at <= |p.log| && Ordered(p)
    ensures (forall i: nat :: i <= |p.log| - p.at ==> AtOrdered(p, plan, i)) <==> NoHole(p, plan)
  {
    if NoHole(p, plan) {
      forall i: nat | i <= |p.log| - p.at ensures AtOrdered(p, plan, i) {
        OrderedThen(p, plan, i);
      }
    } else {
      var x, y :| Start(p) <= x < y < |p.log| && Stays(p, plan, x) && Goes(p, plan, y);
      ClearedByMeans(p, plan, y - p.at + 1);
      assert x !in ClearedBy(p, plan, y - p.at + 1).cleared && y in ClearedBy(p, plan, y - p.at + 1).cleared;
      assert !AtOrdered(p, plan, y - p.at + 1);
    }
  }

  /** So the first clear that fails, with the second that succeeds, leaves a hole at some moment. */
  lemma FailedClearLeavesHole(p: Past, plan: seq<bool>)
    requires p.out <= p.at && p.at + 2 <= |p.log| && Tidy(p) && p.at !in p.cleared
    requires Fails(plan, 0) && !Fails(plan, 1)
    ensures !NoHole(p, plan)
    ensures exists i: nat :: i <= |p.log| - p.at && !AtOrdered(p, plan, i)
  {
    assert Stays(p, plan, p.at) && Goes(p, plan, p.at + 1);
    ClearInOrder(p, plan);
  }

  /** A tidy queue is tidy after i clears exactly if none of them left a metric. */
  lemma ClearTidy(p: Past, plan: seq<bool>, i: nat)
    requires p.out <= p.at && p.at + i <= |p.log| <= p.at + 65535 && Tidy(p)
    ensures ClearedBy(p, plan, i).log == p.log && ClearedBy(p, plan, i).out == p.out
    ensures Tidy(ClearedBy(p, plan, i)) <==> forall x :: p.at <= x < p.at + i ==> !Stays(p, plan, x)
  {
    ClearedByMeans(p, plan, i);
    var q := ClearedBy(p, plan, i);
    forall x: nat | p.at <= x < p.at + i ensures x in q.cleared <==> !Stays(p, plan, x) {
      assert Goes(p, plan, x) <==> !Fails(plan, x - p.at);
    }
  }

  ghost predicate AtOrdered(p: Past, plan: seq<bool>, i: nat) {
    var q := ClearedBy(p, plan, i);
    q.out <= |q.log| && Ordered(q)
  }

  lemma OrderedThen(p: Past, plan: seq<bool>, i: nat)
    requires p.out <= p.at <= |p.log| && Ordered(p) && NoHole(p, plan) && i <= |p.log| - p.at
    ensures AtOrdered(p, plan, i)
  {
    ClearedByMeans(p, plan, i);
    var q := ClearedBy(p, plan, i);
    forall x: nat, y: nat | Start(q) <= x < y < |q.log| && y in q.cleared ensures x in q.cleared {
      assert y !in p.cleared ==> Goes(p, plan, y);
      assert y !in p.cleared && x !in q.cleared ==> Stays(p, plan, x);
    }
  }

  /** A queue can be found full exactly when it is allowed no more than 65535 metrics; one that is allowed
      more is empty again after 65536 writes. */
  lemma Laps(max: nat, head: nat)
    ensures (exists index: Id, outdex: Id :: Count(index, outdex) >= max) <==> max <= 65535
    ensures Count(Wrap(head + 65536), Wrap(head)) == 0
  {
    assert Count(65535, 0) == 65535;
    assert Wrap(head + 65536) == Wrap(head);
  }

  // ---------------------------------------------------------------------- key strings

  function Digits(n: nat): string {
    if n < 10 then [Digit(n)] else Digits(n / 10) + [Digit(n % 10)]
  }

  function Digit(d: nat): (c: char)
    requires d < 10
    ensures '0' <= c <= '9'
  {
    '0' + d as char
  }

  function Suffix(k: Key): string {
    match k
    case IndexKey => "index"
    case OutdexKey => "outdex"
    case MetricKey(id) => Digits(id)
  }

  /** The key that is handed to the store: snprintf keeps 14 characters. */
  function KeyString(prefix: string, k: Key): string {
    Cut(prefix + "/" + Suffix(k), 14)
  }

  function Cut(s: string, n: nat): string {
    if |s| <= n then s else s[..n]
  }

  lemma {:induction false} DigitsAreDigits(n: nat)
    ensures |Digits(n)| > 0 && forall i :: 0 <= i < |Digits(n)| ==> '0' <= Digits(n)[i] <= '9'
  {
    if n >= 10 {
      DigitsAreDigits(n / 10);
    }
  }

  lemma DigitsAtMost5(n: nat)
    requires n < 65536
    ensures |Digits(n)| <= 5
  {
    var a, b, c, d := n / 10, n / 100, n / 1000, n / 10000;
    assert d < 10 && a / 10 == b && b / 10 == c && c / 10 == d;
    assert |Digits(d)| == 1;
    assert |Digits(c)| <= 2;
    assert |Digits(b)| <= 3;
    assert |Digits(a)| <= 4;
  }

  lemma {:induction false} DigitsInjective(m: nat, n: nat)
    requires Digits(m) == Digits(n)
    ensures m == n
  {
    DigitsAreDigits(m / 10);
    DigitsAreDigits(n / 10);
    assert Digits(m)[|Digits(m)| - 1] == Digit(m % 10) && Digits(n)[|Digits(n)| - 1] == Digit(n % 10);
    DigitInjective(m % 10, n % 10);
    if m >= 10 && n >= 10 {
      var x, y := Digits(m / 10), Digits(n / 10);
      assert x == (x + [Digit(m % 10)])[..|x|] && y == (y + [Digit(n % 10)])[..|y|];
      DigitsInjective(m / 10, n / 10);
    }
  }

  lemma DigitInjective(d: nat, e: nat)
    requires d < 10 && e < 10 && Digit(d) == Digit(e)
    ensures d == e
  {
    assert (Digit(d) - '0') as int == d && (Digit(e) - '0') as int == e;
  }

  /** No two keys of the queue have one name. */
  ghost predicate Distinct(prefix: string) {
    forall k, l :: KeyString(prefix, k) == KeyString(prefix, l) ==> k == l
  }

  lemma CutSuffix(prefix: string, k: Key)
    requires |prefix| <= 8
    ensures KeyString(prefix, k) == prefix + "/" + Cut(Suffix(k), 13 - |prefix|)
  {
  }

  lemma SuffixDistinct(k: Key, l: Key, n: nat)
    requires n >= 5 && Cut(Suffix(k), n) == Cut(Suffix(l), n)
    ensures k == l
  {
    if k.MetricKey? {
      DigitsAreDigits(k.id);
      DigitsAtMost5(k.id);
    }
    if l.MetricKey? {
      DigitsAreDigits(l.id);
      DigitsAtMost5(l.id);
    }
    if k.MetricKey? && l.MetricKey? {
      DigitsInjective(k.id, l.id);
    } else {
      assert Cut(Suffix(k), n)[0] == Suffix(k)[0] && Cut(Suffix(l), n)[0] == Suffix(l)[0];
    }
  }

  /** metricfs_create accepts prefixes of up to 9 characters; with 9 two metrics share a name. */
  lemma DistinctExactly(prefix: string)
    ensures Distinct(prefix) <==> |prefix| <= 8
  {
    if |prefix| <= 8 {
      forall k, l | KeyString(prefix, k) == KeyString(prefix, l) ensures k == l {
        CutSuffix(prefix, k);
        CutSuffix(prefix, l);
        var head := prefix + "/";
        assert KeyString(prefix, k)[|head|..] == Cut(Suffix(k), 13 - |prefix|);
        assert KeyString(prefix, l)[|head|..] == Cut(Suffix(l), 13 - |prefix|);
        SuffixDistinct(k, l, 13 - |prefix|);
      }
    } else {
      assert Digits(1000) == "1000";
      assert Digits(10000) == "10000";
      assert prefix + "/" + "10000" == prefix + "/" + "1000" + "0";
      assert KeyString(prefix, MetricKey(1000)) == KeyString(prefix, MetricKey(10000));
    }
  }
}

/** The metric queue at work. */
module MetricFs {
  import opened Basics
  import opened MetricQueue

  const ENOENT := -2
  const EIO := -5
  const ENOSPC := -28

  /** The store after one of its operations, and what had happened by then. */
  datatype Moment = Moment(store: Store, past: Past)

  ghost predicate Recorded(trace: seq<Moment>) {
    forall k :: 0 <= k < |trace| ==> Account(trace[k].store, trace[k].past)
  }

  /** `after` goes on from `before` with moments of these pasts. */
  ghost predicate Grown(before: seq<Moment>, after: seq<Moment>, pasts: seq<Past>) {
    && before <= after && |after| == |before| + |pasts|
    && forall k :: 0 <= k < |pasts| ==> after[|before| + k].past == pasts[k]
  }

  lemma NothingYet(trace: seq<Moment>)
    ensures Grown(trace, trace, [])
  {
  }

  /** One more moment is on record. */
  lemma OnRecord(before: seq<Moment>, trace: seq<Moment>, pasts: seq<Past>, store: Store, p: Past)
    requires Recorded(trace) && Grown(before, trace, pasts) && Account(store, p)
    ensures Recorded(trace + [Moment(store, p)]) && Grown(before, trace + [Moment(store, p)], pasts + [p])
  {
  }

  /** A device that loses power at any of these moments reads back what was committed and not deleted. */
  ghost predicate TidySince(trace: seq<Moment>, since: nat) {
    forall k :: since <= k < |trace| ==> trace[k].past.out <= |trace[k].past.log| && Tidy(trace[k].past)
  }

  lemma TidyMoments(before: seq<Moment>, after: seq<Moment>, pasts: seq<Past>)
    requires Grown(before, after, pasts)
    requires forall k :: 0 <= k < |pasts| ==> pasts[k].out <= |pasts[k].log| && Tidy(pasts[k])
    ensures TidySince(after, |before|)
  {
    forall k | |before| <= k < |after| ensures after[k].past.out <= |after[k].past.log| && Tidy(after[k].past) {
      assert after[|before| + (k - |before|)].past == pasts[k - |before|];
    }
  }

  lemma PushedIsNew(p: Past, data: seq<byte>)
    ensures Pushed(p, data) != p
  {
    assert |Pushed(p, data).log| == |p.log| + 1;
  }

  lemma WriteTidy(before: seq<Moment>, after: seq<Moment>, s: Store, p: Past, data: seq<byte>, pasts: seq<Past>)
    requires Account(s, p) && Grown(before, after, pasts)
    requires forall k :: 0 <= k < |pasts| ==> pasts[k] in {p, Pushed(p, data)}
    ensures Tidy(p) ==>
              && (Tidy(Pushed(p, data)) <==> Roomy(p))
              && (Roomy(p) || Pushed(p, data) !in pasts ==> TidySince(after, |before|))
  {
    if Tidy(p) {
      TidyKept(p, data);
      if Roomy(p) || Pushed(p, data) !in pasts {
        forall k | 0 <= k < |pasts| ensures pasts[k].out <= |pasts[k].log| && Tidy(pasts[k]) {
          assert pasts[k] in pasts;
        }
        TidyMoments(before, after, pasts);
      }
    }
  }

  lemma DeleteTidy(before: seq<Moment>, after: seq<Moment>, s: Store, p: Past, pasts: seq<Past>)
    requires Account(s, p) && p.at < |p.log| && Grown(before, after, pasts)
    requires var q := Cleared(p, p.at); forall k :: 0 <= k < |pasts| ==> pasts[k] in {p, q, Moved(q, p.at + 1)}
    ensures var q := Cleared(p, p.at);
            Tidy(p) ==> TidySince(after, |before|) && Tidy(q) && Tidy(Moved(q, p.at + 1))
  {
    if Tidy(p) {
      TidyKept(p, []);
      TidyMoments(before, after, pasts);
    }
  }

  lemma ClearTidies(before: seq<Moment>, after: seq<Moment>, s: Store, p: Past, plan: seq<bool>, n: nat)
    requires Account(s, p) && n == |p.log| - p.at && n > 0
    requires Grown(before, after, ClearSteps(p, plan, n) + [ClearDone(p, plan, n)])
    ensures ClearDone(p, plan, n).out <= |ClearDone(p, plan, n).log|
    ensures !Fails(plan, n) ==> Tidy(ClearDone(p, plan, n))
    ensures Tidy(p) && (forall x :: p.at <= x < |p.log| ==> !Stays(p, plan, x)) ==>
              TidySince(after, |before|) && Tidy(ClearDone(p, plan, n))
  {
    ClearedByMeans(p, plan, n);
    if Tidy(p) && forall x :: p.at <= x < |p.log| ==> !Stays(p, plan, x) {
      var pasts := ClearSteps(p, plan, n) + [ClearDone(p, plan, n)];
      forall k | 0 <= k < |pasts| ensures pasts[k].out <= |pasts[k].log| && Tidy(pasts[k]) {
        ClearTidy(p, plan, if k < n then k + 1 else n);
      }
      TidyMoments(before, after, pasts);
      assert pasts[n] == ClearDone(p, plan, n);
    }
  }

  class Queue {
    const max: nat
    var store: Store
    var plan: seq<bool>
    var index: Id
    var outdex: Id
    ghost var past: Past
    ghost var trace: seq<Moment>

    ghost predicate Valid()
      reads this
    {
      Account(store, past) && Recorded(trace) && index == Wrap(|past.log|) && outdex == Wrap(past.at)
    }

    /** metricfs_create, on what a store holds. */
    constructor (store: Store, plan: seq<bool>, max: nat, ghost p: Past)
      requires max > 0 && Account(store, p)
      ensures Valid() && past == Moved(p, Start(p)) && trace == []
      ensures this.store == store && this.plan == plan && this.max == max
      // counters that the store has not got are 0
      ensures (IndexKey !in store ==> index == 0) && (OutdexKey !in store ==> outdex == 0)
      ensures IndexKey !in store && OutdexKey !in store ==> |past.log| == past.at
      ensures IndexKey in store && |store[IndexKey]| == 2 ==>
                index == store[IndexKey][0] as int + 256 * store[IndexKey][1] as int
      ensures OutdexKey in store && |store[OutdexKey]| == 2 ==>
                outdex == store[OutdexKey][0] as int + 256 * store[OutdexKey][1] as int
    {
      this.max, this.store, this.plan := max, store, plan;
      index, outdex := GetId(store, IndexKey), GetId(store, OutdexKey);
      this.past, trace := Moved(p, Start(p)), [];
      WrapCounts(Start(p), |p.log|);
    }

    /** A store operation is over, and this is what has happened by now. */
    ghost method Note(before: seq<Moment>, pasts: seq<Past>, p: Past)
      requires Recorded(trace) && Grown(before, trace, pasts) && Account(store, p)
      modifies this`past, this`trace
      ensures past == p && Recorded(trace) && Grown(before, trace, pasts + [p])
    {
      OnRecord(before, trace, pasts, store, p);
      past := p;
      trace := trace + [Moment(store, p)];
    }

    /** The next operation of the store fails. */
    method Failing() returns (failed: bool)
      modifies this`plan
      ensures failed == Fails(old(plan), 0) && plan == Rest(old(plan), 1)
      ensures failed == (old(plan) != [] && old(plan)[0]) && plan == if old(plan) == [] then [] else old(plan)[1..]
    {
      failed := plan != [] && plan[0];
      if plan != [] {
        plan := plan[1..];
      }
    }

    /** kvstore_write: all of it, or an error and nothing. */
    method KvWrite(k: Key, v: seq<byte>) returns (n: int)
      modifies this`store, this`plan
      ensures plan == Rest(old(plan), 1)
      ensures n == (if Fails(old(plan), 0) then EIO else |v|)
      ensures store == (if Fails(old(plan), 0) then old(store) else old(store)[k := v])
    {
      var failed := Failing();
      if failed {
        return EIO;
      }
      store := store[k := v];
      return |v|;
    }

    /** kvstore_clear */
    method KvClear(k: Key) returns (n: int)
      modifies this`store, this`plan
      ensures plan == Rest(old(plan), 1)
      ensures n == (if Fails(old(plan), 0) then EIO else if k in old(store) then 0 else ENOENT)
      ensures store == (if Fails(old(plan), 0) then old(store) else old(store) - {k})
    {
      var failed := Failing();
      if failed {
        return EIO;
      }
      if k !in store {
        assert store - {k} == store;
        return ENOENT;
      }
      store := store - {k};
      return 0;
    }

    /** metricfs_write */
    method Write(data: seq<byte>) returns (rc: int, id: Option<Id>)
      requires Valid()
      modifies this`store, this`plan, this`index, this`past, this`trace
      ensures Valid()
      ensures var p, full, f := old(past), |old(past.log)| - old(past.at) >= max, old(plan);
              && rc == (if full then ENOSPC else if Fails(f, 0) || Fails(f, 1) then EIO else 0)
              && past == (if rc == 0 then Pushed(p, data) else p)
              && Grown(old(trace), trace, if full then [] else if Fails(f, 0) then [p] else [p, past])
              && id == if rc == 0 then Some(Wrap(|p.log|)) else None
      ensures Tidy(old(past)) ==> (TidySince(trace, |old(trace)|) && Tidy(past) <==> rc != 0 || Roomy(old(past)))
      ensures Tidy(old(past)) ==> (Tidy(past) <==> rc != 0 || Roomy(old(past)))
    {
      hide Account, Recorded, Grown, Tidy, TidySince, Roomy, Pushed;
      ghost var p := past;
      id := None;
      assert [] + [p] == [p];
      NothingYet(trace);
      CountIs(store, p);
      PushedIsNew(p, data);
      if Count(index, outdex) >= max {
        WriteTidy(old(trace), trace, store, p, data, []);
        return ENOSPC, None;
      }
      Uncommitted(store, p, data);
      var n := KvWrite(MetricKey(index), data);
      Note(old(trace), [], p);
      if n != |data| {
        WriteTidy(old(trace), trace, store, p, data, [p]);
        return n, None;
      }
      rc, id := Commit(old(trace), p, data);
      WriteTidy(old(trace), trace, old(store), p, data, [p, past]);
    }

    /** update_index, past a metric that is written. */
    method Commit(ghost before: seq<Moment>, ghost p: Past, ghost data: seq<byte>) returns (rc: int, id: Option<Id>)
      requires Valid() && past == p && Grown(before, trace, [p]) && MetricAt(store, Wrap(|p.log|)) == Some(data)
      modifies this`store, this`plan, this`index, this`past, this`trace
      ensures Valid() && Grown(before, trace, [p, past])
      ensures rc == (if Fails(old(plan), 0) then EIO else 0) && past == if rc == 0 then Pushed(p, data) else p
      ensures id == if rc == 0 then Some(Wrap(|p.log|)) else None
    {
      hide Account, Recorded, Grown;
      ghost var r := Pushed(p, data);
      assert [p] + [p] == [p, p] && [p] + [r] == [p, r];
      Committed(store, p, data);
      var n := KvWrite(IndexKey, PutId(Next(index)));
      if n == 2 {
        id := Some(index);
        index := Next(index);
        Note(before, [p], r);
        return 0, id;
      }
      Note(before, [p], p);
      return n, None;
    }

    /** delete_first: an id that an interrupted delete has cleared already is passed over. */
    method DeleteFirst() returns (rc: int)
      requires Valid()
      modifies this`store, this`plan, this`outdex, this`past, this`trace
      ensures Valid()
      ensures var p, q, none, f := old(past), Cleared(old(past), old(past).at), |old(past.log)| == old(past.at),
              old(plan);
              && rc == (if none then ENOENT else if Fails(f, 0) || Fails(f, 1) then EIO else 0)
              && past == (if none || Fails(f, 0) then p else if Fails(f, 1) then q else Moved(q, p.at + 1))
              && Grown(old(trace), trace, if none then [] else if Fails(f, 0) then [p] else [q, past])
      ensures Tidy(old(past)) ==> TidySince(trace, |old(trace)|) && Tidy(past)
    {
      hide Account, Recorded, Grown, Tidy, TidySince;
      ghost var p, q := past, Cleared(past, past.at);
      assert [] + [p] == [p] && [] + [q] == [q];
      NothingYet(trace);
      CountIs(store, p);
      if Count(index, outdex) == 0 {
        TidyMoments(trace, trace, []);
        return ENOENT;
      }
      ClearedOne(store, p, p.at);
      var n := KvClear(MetricKey(outdex));
      if n < 0 && n != ENOENT {
        Note(old(trace), [], p);
        DeleteTidy(old(trace), trace, old(store), p, [p]);
        return n;
      }
      Note(old(trace), [], q);
      rc := PassFirst(old(trace), q);
      DeleteTidy(old(trace), trace, old(store), p, [q, past]);
    }

    /** update_outdex, past the first id. */
    method PassFirst(ghost before: seq<Moment>, ghost q: Past) returns (rc: int)
      requires Valid() && past == q && q.at < |q.log| && Grown(before, trace, [q])
      modifies this`store, this`plan, this`outdex, this`past, this`trace
      ensures Valid() && Grown(before, trace, [q, past])
      ensures rc == (if Fails(old(plan), 0) then EIO else 0) && past == if rc == 0 then Moved(q, q.at + 1) else q
    {
      hide Account, Recorded, Grown;
      ghost var r := Moved(q, q.at + 1);
      assert [q] + [q] == [q, q] && [q] + [r] == [q, r];
      CountIs(store, q);
      OutdexMoved(store, q, q.at + 1);
      WrapNext(q.at);
      var n := KvWrite(OutdexKey, PutId(Next(outdex)));
      if n == 2 {
        outdex := Next(outdex);
        Note(before, [q], r);
        return 0;
      }
      Note(before, [q], q);
      return n;
    }

    /** peek_first */
    method PeekFirst(bufsize: nat) returns (rc: int, data: seq<byte>)
      requires Valid()
      ensures var p := past;
              if |p.log| == p.at || p.at in p.cleared then rc == ENOENT && data == []
              else rc == Min(bufsize, |p.log[p.at]|) && data == p.log[p.at][..rc]
    {
      hide Account, Recorded;
      CountIs(store, past);
      if Count(index, outdex) == 0 {
        return ENOENT, [];
      }
      HeldAt(store, past, past.at);
      if MetricKey(outdex) !in store {
        return ENOENT, [];
      }
      var v := store[MetricKey(outdex)];
      rc := Min(bufsize, |v|);
      data := v[..rc];
    }

    /**
     * metricfs_read_first: what it reads it deletes. An empty metric is neither returned with success nor
     * deleted, and on an empty queue the error is that of an I/O failure.
     */
    method ReadFirst(bufsize: nat) returns (rc: int, data: seq<byte>, id: Option<Id>)
      requires Valid()
      modifies this`store, this`plan, this`outdex, this`past, this`trace
      ensures Valid() && old(trace) <= trace && (Tidy(old(past)) ==> TidySince(trace, |old(trace)|) && Tidy(past))
      ensures var p, f := old(past), old(plan);
              if |p.log| == p.at then rc == EIO && past == p
              else if p.at in p.cleared then
                && rc == (if Fails(f, 0) || Fails(f, 1) then EIO else ENOENT)
                && past == if rc == ENOENT then Moved(p, p.at + 1) else p
              else if Min(bufsize, |p.log[p.at]|) == 0 then rc == 0 && past == p
              else
                && data == p.log[p.at][..Min(bufsize, |p.log[p.at]|)] && id == Some(Wrap(p.at))
                && rc == (if Fails(f, 0) || Fails(f, 1) then EIO else |data|)
                && past == if Fails(f, 0) then p else if Fails(f, 1) then Cleared(p, p.at)
                           else Moved(Cleared(p, p.at), p.at + 1)
    {
      ghost var p := past;
      assert p.at in p.cleared ==> Cleared(p, p.at) == p;
      rc, data := PeekFirst(bufsize);
      id := None;
      if rc > 0 || rc == ENOENT {
        if rc > 0 {
          id := Some(outdex);
        }
        var err := DeleteFirst();
        if err < 0 {
          rc := EIO;
        }
      }
    }

    /**
     * metricfs_clear: clears every id, the missing ones too, and then moves the outdex. The missing ids of the
     * store come first at every moment exactly if no failing clear comes before a succeeding one.
     */
    method Clear() returns (rc: int)
      requires Valid()
      modifies this`store, this`plan, this`outdex, this`past, this`trace
      ensures Valid()
      ensures var p, f, n := old(past), old(plan), |old(past).log| - old(past).at;
              if n == 0 then rc == ENOENT && past == p && trace == old(trace)
              else
                && past == ClearDone(p, f, n)
                && Grown(old(trace), trace, ClearSteps(p, f, n) + [past])
                && (rc == 0 <==> AllFine(p, f, n) && !Fails(f, n))
                && rc in {0, EIO}
      ensures Ordered(old(past)) ==>
                ((forall k :: |old(trace)| <= k < |trace| ==> MissingFirst(Recovered(trace[k].store)))
                 <==> NoHole(old(past), old(plan)))
      ensures |old(past).log| > old(past).at && !Fails(old(plan), |old(past).log| - old(past).at) ==> Tidy(past)
      ensures Tidy(old(past)) && (forall x :: old(past).at <= x < |old(past).log| ==>
                                  !Stays(old(past), old(plan), x)) ==>
                TidySince(trace, |old(trace)|) && Tidy(past)
    {
      hide Account, Recorded, Grown, Tidy;
      ghost var p, f := past, plan;
      CountIs(store, p);
      var n := Count(index, outdex);
      if n == 0 {
        return ENOENT;
      }
      var ok := ClearAll(n);
      ghost var q := past;
      ClearedByMeans(p, f, n);
      OutdexMoved(store, q, |q.log|);
      var e := KvWrite(OutdexKey, PutId(outdex));
      Note(old(trace), ClearSteps(p, f, n), ClearDone(p, f, n));
      rc := if e < 0 then e else if ok then 0 else EIO;
      ClearTidies(old(trace), trace, old(store), p, f, n);
      if Ordered(p) {
        ClearTrace(old(trace), trace, p, f, n);
      }
    }

    /** iterate with on_clear_iteration */
    method ClearAll(n: nat) returns (ok: bool)
      requires Valid() && n == |past.log| - past.at
      modifies this`store, this`plan, this`outdex, this`past, this`trace
      ensures Valid() && plan == Rest(old(plan), n) && past == ClearedBy(old(past), old(plan), n)
      ensures Grown(old(trace), trace, ClearSteps(old(past), old(plan), n))
      ensures ok <==> AllFine(old(past), old(plan), n)
    {
      hide Account, Recorded, Grown;
      ok := true;
      ghost var p, f := past, plan;
      NothingYet(trace);
      for i := 0 to n
        invariant Valid() && plan == Rest(f, i) && past == ClearedBy(p, f, i) && index == old(index)
        invariant Grown(old(trace), trace, ClearSteps(p, f, i))
        invariant ok <==> AllFine(p, f, i)
      {
        ClearedByMeans(p, f, i);
        var done := ClearNext();
        ClearedByMeans(p, f, i + 1);
        Note(old(trace), ClearSteps(p, f, i), ClearedBy(p, f, i + 1));
        MoreSteps(p, f, i);
        ok := ok && done;
      }
    }

    /** on_clear_iteration */
    method ClearNext() returns (done: bool)
      requires Valid() && past.at < |past.log|
      modifies this`store, this`plan, this`outdex
      ensures plan == Rest(old(plan), 1)
      ensures done == (!Fails(old(plan), 0) && past.at !in past.cleared)
      ensures Account(store, (if Fails(old(plan), 0) then past else Cleared(past, past.at)).(at := past.at + 1))
      ensures outdex == Wrap(past.at + 1)
    {
      ClearedOne(store, past, past.at);
      WrapNext(past.at);
      assert MetricAt(store, Wrap(past.at)) == Expected(past, past.at);
      var e := KvClear(MetricKey(outdex));
      done := e >= 0;
      outdex := Next(outdex);
    }

    /** metricfs_iterate: what is handed to the callback; an id that is missing makes it an error. */
    method Iterate(bufsize: nat, most: nat) returns (rc: int, found: seq<(Id, seq<byte>)>)
      requires Valid()
      ensures var p := past;
              var all := |p.log| - p.at;
              var n := if most > 0 && Wrap(most) < all then Wrap(most) else all;
              && (all == 0 ==> rc == ENOENT && found == [])
              && (all > 0 ==>
                    && rc == (if forall j :: p.at <= j < p.at + n ==> j !in p.cleared then 0 else EIO)
                    && found == Listed(p, p.at + n, bufsize))
    {
      hide Account, Recorded;
      CountIs(store, past);
      var n := Count(index, outdex);
      found := [];
      if n == 0 {
        return ENOENT, [];
      }
      if most > 0 && Wrap(most) < n {
        n := Wrap(most);
      }
      rc := 0;
      var id := outdex;
      for i := 0 to n
        invariant id == Wrap(past.at + i)
        invariant rc == (if NoneCleared(past, past.at + i) then 0 else EIO)
        invariant found == Listed(past, past.at + i, bufsize)
      {
        HeldAt(store, past, past.at + i);
        if MetricKey(id) in store {
          found := found + [(id, Cropped(store[MetricKey(id)], bufsize))];
        } else {
          rc := EIO;
        }
        id := Next(id);
      }
    }
  }

  function Rest(plan: seq<bool>, n: nat): (r: seq<bool>)
    ensures forall i: nat :: Fails(r, i) == Fails(plan, n + i)
  {
    if n <= |plan| then plan[n..] else []
  }

  /** The pasts of the moments of metricfs_clear, up to the last clear. */
  function ClearSteps(p: Past, plan: seq<bool>, n: nat): (r: seq<Past>)
    ensures |r| == n && forall i :: 0 <= i < n ==> r[i] == ClearedBy(p, plan, i + 1)
  {
    seq(n, i requires 0 <= i => ClearedBy(p, plan, i + 1))
  }

  lemma MoreSteps(p: Past, plan: seq<bool>, n: nat)
    ensures ClearSteps(p, plan, n) + [ClearedBy(p, plan, n + 1)] == ClearSteps(p, plan, n + 1)
  {
  }

  /** Each of the first n clears finds its id, and succeeds. */
  predicate AllFine(p: Past, plan: seq<bool>, n: nat) {
    n == 0 || (AllFine(p, plan, n - 1) && !Fails(plan, n - 1) && p.at + (n - 1) !in p.cleared)
  }

  /** And after the outdex is written, or not. */
  function ClearDone(p: Past, plan: seq<bool>, n: nat): Past {
    var q := ClearedBy(p, plan, n);
    if Fails(plan, n) then q else Moved(q, q.at)
  }

  lemma ClearTrace(before: seq<Moment>, after: seq<Moment>, p: Past, plan: seq<bool>, n: nat)
    requires Recorded(after) && p.out <= p.at <= |p.log| && n == |p.log| - p.at && n > 0 && Ordered(p)
    requires Grown(before, after, ClearSteps(p, plan, n) + [ClearDone(p, plan, n)])
    ensures (forall k :: |before| <= k < |after| ==> MissingFirst(Recovered(after[k].store))) <==> NoHole(p, plan)
  {
    ClearInOrder(p, plan);
    ClearedByMeans(p, plan, n);
    var pasts := ClearSteps(p, plan, n) + [ClearDone(p, plan, n)];
    forall k | |before| <= k < |after|
      ensures MissingFirst(Recovered(after[k].store)) <==> StepOrdered(p, plan, n, k - |before|)
    {
      assert after[|before| + (k - |before|)].past == pasts[k - |before|];
      ClearedByMeans(p, plan, k - |before| + 1);
      CrashRecovers(after[k].store, after[k].past);
    }
    if NoHole(p, plan) {
      forall i: nat | i <= n ensures StepOrdered(p, plan, n, i) {
        assert AtOrdered(p, plan, if i < n then i + 1 else n);
      }
    } else {
      var i: nat :| i <= n && !AtOrdered(p, plan, i);
      assert i > 0;
      assert !StepOrdered(p, plan, n, i - 1);
      var k := |before| + (i - 1);
      assert !MissingFirst(Recovered(after[k].store));
    }
  }

  /** The cleared positions come first at the i-th moment of metricfs_clear. */
  ghost predicate StepOrdered(p: Past, plan: seq<bool>, n: nat, i: nat) {
    if i < n then AtOrdered(p, plan, i + 1) else !Fails(plan, n) || AtOrdered(p, plan, n)
  }

  function Cropped(data: seq<byte>, bufsize: nat): seq<byte> {
    if |data| <= bufsize then data else data[..bufsize]
  }

  /** All positions of the queue before the i-th are there. */
  ghost predicate NoneCleared(p: Past, i: nat) {
    forall j :: p.at <= j < i ==> j !in p.cleared
  }

  /** The metrics that are not deleted, from the first of the queue to the i-th, with their ids. */
  function Listed(p: Past, i: nat, bufsize: nat): seq<(Id, seq<byte>)>
    requires i <= |p.log|
  {
    if i <= p.at then []
    else if i - 1 in p.cleared then Listed(p, i - 1, bufsize)
    else Listed(p, i - 1, bufsize) + [(Wrap(i - 1), Cropped(p.log[i - 1], bufsize))]
  }

  /** They are in order, each under its id and cropped to the buffer. */
  lemma ListedInOrder(p: Past, i: nat, bufsize: nat)
    requires i < |p.log|
    ensures i < p.at || i in p.cleared ==> Listed(p, i + 1, bufsize) == Listed(p, i, bufsize)
    ensures p.at <= i && i !in p.cleared ==>
              Listed(p, i + 1, bufsize) ==
              Listed(p, i, bufsize) + [(Wrap(i), p.log[i][..if bufsize < |p.log[i]| then bufsize else |p.log[i]|])]
    ensures Listed(p, 0, bufsize) == [] && (p.at <= |p.log| ==> Listed(p, p.at, bufsize) == [])
  {
    assert p.log[i][..|p.log[i]|] == p.log[i];
  }

  /** metricfs_clear succeeds if no clear fails and no id is missing. */
  lemma {:induction false} AllFineIs(p: Past, plan: seq<bool>, n: nat)
    ensures AllFine(p, plan, n) <==> forall x: nat :: p.at <= x < p.at + n ==> FineAt(p, plan, x)
  {
    if n > 0 {
      AllFineIs(p, plan, n - 1);
      assert FineAt(p, plan, p.at + (n - 1)) <==> !Fails(plan, n - 1) && p.at + (n - 1) !in p.cleared;
    }
  }

  predicate FineAt(p: Past, plan: seq<bool>, x: nat) {
    x !in p.cleared && (x < p.at || x - p.at >= |plan| || !plan[x - p.at])
  }

  /**
   * The device loses power after any operation of the store and starts again on what the store then
   * held: the queue is what had been committed by that moment.
   */
  method CrashAndReopen(q: Queue, ghost k: nat, store: Store, plan: seq<bool>) returns (q': Queue)
    requires q.Valid() && q.max > 0 && k < |q.trace| && store == q.trace[k].store
    ensures var p := q.trace[k].past;
            && q'.Valid() && q'.store == store && p.out <= p.at <= |p.log| <= p.at + 65535
            && q'.past == Moved(p, Start(p)) && Recovered(q'.store) == Listing(p, Start(p))
            && (Tidy(p) ==>
                  var first := FirstLeft(p, p.at);
                  Recovered(q'.store) == Nones(first - Start(p)) + Somes(p.log[first..]))
  {
    ghost var p := q.trace[k].past;
    CrashRecovers(store, p);
    if Tidy(p) {
      TidyRecovers(store, p);
    }
    q' := new Queue(store, plan, q.max, p);
  }
}
