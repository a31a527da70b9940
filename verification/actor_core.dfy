/**
 * One dispatcher of the actor scheduler (modules/actor/src/actor.c): the run queue of a
 * priority, its semaphore, and the mailboxes of the actors that run at that priority.
 */
module ActorCore {
  import opened Basics

  type Actor = nat
  type Msg = nat

  datatype Core = Core(runq: seq<Actor>, tokens: nat, mail: map<Actor, seq<Msg>>)

  // -------------------------------------------------------------------------- lists

  /** No element twice. */
  ghost predicate NoDup<T>(q: seq<T>) {
    q == [] || (q[0] !in q[1..] && NoDup(q[1..]))
  }

  /** add_if_not_exist */
  function Added<T(==)>(q: seq<T>, x: T): seq<T> {
    if x in q then q else q + [x]
  }

  method AddIfNotExist<T(==)>(q: seq<T>, x: T) returns (added: bool, r: seq<T>)
    ensures added <==> x !in q
    ensures r == Added(q, x) == if x in q then q else q + [x]
  {
    for i := 0 to |q|
      invariant forall j :: 0 <= j < i ==> q[j] != x
    {
      if q[i] == x {
        return false, q;
      }
    }
    return true, q + [x];
  }

  // ----------------------------------------------------------------------- the steps

  /** schedule_actor */
  function Schedule(c: Core, a: Actor): Core {
    c.(runq := Added(c.runq, a), tokens := c.tokens + 1)
  }

  /** push_message */
  function Put(c: Core, a: Actor, m: Msg): Core
    requires a in c.mail
  {
    c.(mail := c.mail[a := Added(c.mail[a], m)])
  }

  /** actor_send: a message that is in the mailbox already is refused, and nothing is scheduled. */
  function Send(c: Core, a: Actor, m: Option<Msg>): Core
    requires a in c.mail
  {
    if m.None? then Schedule(c, a)
    else if m.value in c.mail[a] then c
    else Schedule(Put(c, a, m.value), a)
  }

  /** dispatch_actor, after sem_wait has taken a token. */
  function Dispatch(c: Core): Core
    requires c.tokens > 0
  {
    var c := c.(tokens := c.tokens - 1);
    if c.runq == [] then c
    else
      var a, rest := c.runq[0], c.runq[1..];
      var box := MailOf(c.mail, a);
      if box == [] then c.(runq := rest)
      else c.(runq := if |box| > 1 then Added(rest, a) else rest, mail := c.mail[a := box[1..]])
  }

  /** actor_send, on the core. */
  method SendTo(c: Core, a: Actor, m: Option<Msg>) returns (accepted: bool, r: Core)
    requires a in c.mail
    ensures accepted <==> m.None? || m.value !in c.mail[a]
    ensures r == Send(c, a, m)
    ensures !accepted ==> r == c
    ensures accepted ==>
              && r.runq == (if a in c.runq then c.runq else c.runq + [a]) && r.tokens == c.tokens + 1
              && r.mail == if m.None? then c.mail else c.mail[a := c.mail[a] + [m.value]]
  {
    r := c;
    if m.Some? {
      var added, box := AddIfNotExist(c.mail[a], m.value);
      if !added {
        return false, c;
      }
      r := r.(mail := r.mail[a := box]);
    }
    var _, runq := AddIfNotExist(r.runq, a);
    r := r.(runq := runq, tokens := r.tokens + 1);
    return true, r;
  }

  /** The actor that the next dispatch runs. */
  function NextActor(c: Core): Option<Actor> {
    if c.runq == [] then None else Some(c.runq[0])
  }

  /** The message that it is given: the oldest in its mailbox. */
  function NextMsg(c: Core): Option<Msg> {
    if c.runq == [] || MailOf(c.mail, c.runq[0]) == [] then None else Some(c.mail[c.runq[0]][0])
  }

  /** sem_wait and dispatch_actor, on the core. */
  method DispatchOne(c: Core) returns (who: Option<Actor>, m: Option<Msg>, r: Core)
    requires c.tokens > 0 && forall a :: a in c.runq ==> a in c.mail
    ensures r == Dispatch(c) && who == NextActor(c) && m == NextMsg(c) && r.tokens == c.tokens - 1
    ensures c.runq == [] ==> who == None && m == None && r.runq == [] && r.mail == c.mail
    ensures c.runq != [] ==>
              var a, rest := c.runq[0], c.runq[1..];
              && who == Some(a)
              && if c.mail[a] == [] then m == None && r.runq == rest && r.mail == c.mail
                 else
                   && m == Some(c.mail[a][0]) && r.mail == c.mail[a := c.mail[a][1..]]
                   && r.runq == if |c.mail[a]| > 1 && a !in rest then rest + [a] else rest
  {
    r := c.(tokens := c.tokens - 1);
    who, m := None, None;
    if r.runq == [] {
      return;
    }
    var a := r.runq[0];
    who := Some(a);
    r := r.(runq := r.runq[1..]);
    var box := r.mail[a];
    if box != [] {
      m := Some(box[0]);
      r := r.(mail := r.mail[a := box[1..]]);
      if r.mail[a] != [] {
        var _, runq := AddIfNotExist(r.runq, a);
        r := r.(runq := runq);
      }
    }
  }

  // -------------------------------------------------------------------- the invariant

  function MailOf(mail: map<Actor, seq<Msg>>, a: Actor): seq<Msg> {
    if a in mail then mail[a] else []
  }

  /** Messages waiting for the actors of a run queue. */
  function Queued(q: seq<Actor>, mail: map<Actor, seq<Msg>>): nat {
    if q == [] then 0 else |MailOf(mail, q[0])| + Queued(q[1..], mail)
  }

  /** Actors of a run queue that have no message. */
  function Idle(q: seq<Actor>, mail: map<Actor, seq<Msg>>): nat {
    if q == [] then 0 else (if MailOf(mail, q[0]) == [] then 1 else 0) + Idle(q[1..], mail)
  }

  function Need(box: seq<Msg>): nat {
    if box == [] then 1 else |box|
  }

  /** Every actor with mail is in the run queue, once, and there are tokens for all that waits. */
  ghost predicate Inv(c: Core) {
    && NoDup(c.runq)
    && (forall a :: a in c.runq ==> a in c.mail)
    && (forall a :: a in c.mail && c.mail[a] != [] ==> a in c.runq)
    && Queued(c.runq, c.mail) + Idle(c.runq, c.mail) <= c.tokens
  }

  function Demand(q: seq<Actor>, mail: map<Actor, seq<Msg>>): nat {
    if q == [] then 0 else Need(MailOf(mail, q[0])) + Demand(q[1..], mail)
  }

  lemma {:induction false} DemandSplit(q: seq<Actor>, mail: map<Actor, seq<Msg>>)
    ensures Demand(q, mail) == Queued(q, mail) + Idle(q, mail)
    ensures |q| <= Demand(q, mail)
  {
    if q != [] {
      DemandSplit(q[1..], mail);
    }
  }

  lemma {:induction false} DemandAppend(q: seq<Actor>, a: Actor, mail: map<Actor, seq<Msg>>)
    ensures Demand(q + [a], mail) == Demand(q, mail) + Need(MailOf(mail, a))
  {
    if q == [] {
      assert [a][1..] == [];
    } else {
      assert (q + [a])[1..] == q[1..] + [a];
      DemandAppend(q[1..], a, mail);
    }
  }

  lemma {:induction false} DemandElsewhere(q: seq<Actor>, mail: map<Actor, seq<Msg>>, a: Actor, box: seq<Msg>)
    requires a !in q
    ensures Demand(q, mail[a := box]) == Demand(q, mail)
  {
    if q != [] {
      DemandElsewhere(q[1..], mail, a, box);
    }
  }

  lemma {:induction false} DemandHere(q: seq<Actor>, mail: map<Actor, seq<Msg>>, a: Actor, box: seq<Msg>)
    requires a in q && NoDup(q)
    ensures Demand(q, mail[a := box]) + Need(MailOf(mail, a)) == Demand(q, mail) + Need(box)
  {
    if q[0] == a {
      DemandElsewhere(q[1..], mail, a, box);
    } else {
      DemandHere(q[1..], mail, a, box);
    }
  }

  lemma {:induction false} NoDupAdded<T>(q: seq<T>, x: T)
    requires NoDup(q)
    ensures NoDup(Added(q, x)) && (forall y :: y in Added(q, x) <==> y in q || y == x)
  {
    if x !in q && q != [] {
      NoDupAdded(q[1..], x);
      assert (q + [x])[1..] == q[1..] + [x];
    }
  }

  lemma ScheduleKeeps(c: Core, a: Actor)
    requires Inv(c) && a in c.mail
    ensures Inv(Schedule(c, a))
  {
    NoDupAdded(c.runq, a);
    DemandSplit(c.runq, c.mail);
    DemandSplit(Added(c.runq, a), c.mail);
    if a !in c.runq {
      DemandAppend(c.runq, a, c.mail);
    }
  }

  /** One atomic send keeps the invariant, whatever is in the mailbox. */
  lemma SendKeeps(c: Core, a: Actor, m: Option<Msg>)
    requires Inv(c) && a in c.mail
    ensures Inv(Send(c, a, m))
  {
    if m.None? {
      ScheduleKeeps(c, a);
    } else if m.value !in c.mail[a] {
      var box := c.mail[a] + [m.value];
      var mail := c.mail[a := box];
      NoDupAdded(c.runq, a);
      DemandSplit(c.runq, c.mail);
      DemandSplit(Added(c.runq, a), mail);
      if a in c.runq {
        DemandHere(c.runq, c.mail, a, box);
      } else {
        assert c.mail[a] == [];
        DemandAppend(c.runq, a, mail);
        DemandElsewhere(c.runq, c.mail, a, box);
      }
    }
  }

  /** So does one dispatch. */
  lemma DispatchKeeps(c: Core)
    requires Inv(c) && c.tokens > 0
    ensures Inv(Dispatch(c))
  {
    DemandSplit(c.runq, c.mail);
    if c.runq != [] {
      var a, rest := c.runq[0], c.runq[1..];
      var box := c.mail[a];
      assert a !in rest && NoDup(rest);
      if box == [] {
        DemandSplit(rest, c.mail);
      } else {
        var mail := c.mail[a := box[1..]];
        DemandElsewhere(rest, c.mail, a, box[1..]);
        DemandSplit(rest, mail);
        if |box| > 1 {
          NoDupAdded(rest, a);
          DemandAppend(rest, a, mail);
          DemandSplit(rest + [a], mail);
        }
      }
    }
  }

  /** Waiting mail implies a token and an actor to run: nothing accepted is stranded. */
  lemma NotStranded(c: Core)
    requires Inv(c)
    ensures (exists a :: a in c.mail && c.mail[a] != []) ==> c.tokens > 0 && c.runq != []
    ensures |c.runq| <= c.tokens
  {
    DemandSplit(c.runq, c.mail);
  }

  // --------------------------------------------------------------------------- runs

  datatype Step = Sending(a: Actor, m: Option<Msg>) | Dispatching

  ghost predicate Enabled(c: Core, s: Step) {
    match s
    case Sending(a, m) => a in c.mail
    case Dispatching => c.tokens > 0
  }

  ghost function Next(c: Core, s: Step): Core
    requires Enabled(c, s)
  {
    match s
    case Sending(a, m) => Send(c, a, m)
    case Dispatching => Dispatch(c)
  }

  ghost predicate Legal(c: Core, steps: seq<Step>)
    decreases |steps|
  {
    steps == [] || (Enabled(c, steps[0]) && Legal(Next(c, steps[0]), steps[1..]))
  }

  ghost function Run(c: Core, steps: seq<Step>): Core
    requires Legal(c, steps)
    decreases |steps|
  {
    if steps == [] then c else Run(Next(c, steps[0]), steps[1..])
  }

  /** The invariant holds after every run of atomic sends and dispatches. */
  lemma {:induction false} RunKeeps(c: Core, steps: seq<Step>)
    requires Inv(c) && Legal(c, steps)
    ensures Inv(Run(c, steps))
    decreases |steps|
  {
    if steps != [] {
      NextKeeps(c, steps[0]);
      RunKeeps(Next(c, steps[0]), steps[1..]);
    }
  }

  lemma NextKeeps(c: Core, s: Step)
    requires Inv(c) && Enabled(c, s)
    ensures Inv(Next(c, s))
  {
    match s
    case Sending(a, m) => SendKeeps(c, a, m);
    case Dispatching => DispatchKeeps(c);
  }

  /** The actors dispatched by a run, in order. */
  ghost function Served(c: Core, steps: seq<Step>): seq<Actor>
    requires Legal(c, steps)
    decreases |steps|
  {
    if steps == [] then []
    else
      (if steps[0].Dispatching? && c.runq != [] then [c.runq[0]] else [])
      + Served(Next(c, steps[0]), steps[1..])
  }

  function Dispatches(steps: seq<Step>): nat {
    if steps == [] then 0 else (if steps[0].Dispatching? then 1 else 0) + Dispatches(steps[1..])
  }

  /** The run queue is fair: whatever is sent meanwhile, dispatch k serves the actor at position k. */
  lemma {:induction false} ServedInTurn(c: Core, steps: seq<Step>, k: nat)
    requires Inv(c) && Legal(c, steps) && k < |c.runq| && k < Dispatches(steps)
    ensures k < |Served(c, steps)| && Served(c, steps)[k] == c.runq[k]
    decreases |steps|
  {
    var c' := Next(c, steps[0]);
    NextKeeps(c, steps[0]);
    QueueMoves(c, steps[0], k);
    if steps[0].Sending? {
      ServedInTurn(c', steps[1..], k);
    } else if k > 0 {
      ServedInTurn(c', steps[1..], k - 1);
    }
  }

  lemma QueueMoves(c: Core, s: Step, k: nat)
    requires Inv(c) && Enabled(c, s) && k < |c.runq|
    ensures s.Sending? ==> k < |Next(c, s).runq| && Next(c, s).runq[k] == c.runq[k]
    ensures s.Dispatching? && k > 0 ==> k - 1 < |Next(c, s).runq| && Next(c, s).runq[k - 1] == c.runq[k]
  {
  }

  /** Spending the tokens without further sends empties every mailbox. */
  lemma {:induction false} DrainEmpties(c: Core)
    requires Inv(c)
    ensures Inv(Drained(c)) && Drained(c).tokens == 0 && Drained(c).runq == []
    ensures forall a :: a in Drained(c).mail ==> Drained(c).mail[a] == []
    decreases c.tokens
  {
    if c.tokens == 0 {
      NotStranded(c);
    } else {
      DispatchKeeps(c);
      DrainEmpties(Dispatch(c));
    }
  }

  ghost function Drained(c: Core): Core
    requires Inv(c)
    decreases c.tokens
  {
    if c.tokens == 0 then c else DispatchKeeps(c); Drained(Dispatch(c))
  }
}
