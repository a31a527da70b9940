/**
 * Sends of the actor scheduler in their two critical sections (modules/actor/src/actor.c): the message is put
 * into the mailbox under one lock, and the actor scheduled under another.
 */
module ActorHalves {
  import opened Basics
  import opened ActorCore

  /** Where the dispatcher is: waiting for a token; woken by one; with the actor it took from the run queue;
      with its message taken as well; having seen that there are more. */
  datatype Stage = Idle | Woken | Popped(a: Actor) | Taken(a: Actor) | Again(a: Actor)

  /** A core, its dispatcher, and for each actor the sends that have put their message and not scheduled it. */
  datatype Sched = Sched(core: Core, pending: multiset<Actor>, stage: Stage)

  /** A send is push_message, unless there is no message, and then schedule_actor. */
  datatype Half = Putting(a: Actor, m: Option<Msg>) | Posting(a: Actor) | Moving

  ghost predicate HalfEnabled(s: Sched, h: Half) {
    match h
    case Putting(a, m) => a in s.core.mail
    case Posting(a) => a in s.core.mail && a in s.pending
    case Moving => s.stage == Idle ==> s.core.tokens > 0
  }

  ghost function HalfNext(s: Sched, h: Half): Sched
    requires HalfEnabled(s, h)
  {
    match h
    case Putting(a, m) =>
      if m.None? then s.(pending := s.pending + multiset{a})
      else if m.value in s.core.mail[a] then s
      else s.(core := Put(s.core, a, m.value), pending := s.pending + multiset{a})
    case Posting(a) => s.(core := Schedule(s.core, a), pending := s.pending - multiset{a})
    case Moving => Moved(s)
  }

  /** The next critical section of dispatcher and dispatch_actor. */
  ghost function Moved(s: Sched): Sched
    requires s.stage == Idle ==> s.core.tokens > 0
  {
    match s.stage
    case Idle => s.(core := s.core.(tokens := s.core.tokens - 1), stage := Woken)
    case Woken =>
      if s.core.runq == [] then s.(stage := Idle)
      else s.(core := s.core.(runq := s.core.runq[1..]), stage := Popped(s.core.runq[0]))
    case Popped(a) =>
      var box := MailOf(s.core.mail, a);
      if box == [] then s.(stage := Idle)
      else s.(core := s.core.(mail := s.core.mail[a := box[1..]]), stage := Taken(a))
    case Taken(a) => s.(stage := if MailOf(s.core.mail, a) == [] then Idle else Again(a))
    case Again(a) => s.(core := s.core.(runq := Added(s.core.runq, a)), stage := Idle)
  }

  // ------------------------------------------------------------- mail outside the run queue

  /** Messages of the listed actors that are not in the run queue. */
  function Outside(all: seq<Actor>, q: seq<Actor>, mail: map<Actor, seq<Msg>>): nat {
    if all == [] then 0 else (if all[0] in q then 0 else |MailOf(mail, all[0])|) + Outside(all[1..], q, mail)
  }

  ghost predicate Lists(all: seq<Actor>, mail: map<Actor, seq<Msg>>) {
    NoDup(all) && forall a :: a in all <==> a in mail
  }

  lemma {:induction false} OutsideSame(all: seq<Actor>, q: seq<Actor>, q': seq<Actor>, mail: map<Actor, seq<Msg>>)
    requires forall a :: a in all ==> (a in q <==> a in q')
    ensures Outside(all, q, mail) == Outside(all, q', mail)
  {
    if all != [] {
      OutsideSame(all[1..], q, q', mail);
    }
  }

  lemma {:induction false} OutsideElsewhere(all: seq<Actor>, q: seq<Actor>, mail: map<Actor, seq<Msg>>, a: Actor,
                                            box: seq<Msg>)
    requires a !in all || a in q
    ensures Outside(all, q, mail[a := box]) == Outside(all, q, mail)
  {
    if all != [] {
      OutsideElsewhere(all[1..], q, mail, a, box);
    }
  }

  lemma {:induction false} OutsideHere(all: seq<Actor>, q: seq<Actor>, mail: map<Actor, seq<Msg>>, a: Actor,
                                       box: seq<Msg>)
    requires NoDup(all) && a in all && a !in q
    ensures Outside(all, q, mail[a := box]) + |MailOf(mail, a)| == Outside(all, q, mail) + |box|
  {
    if all[0] == a {
      OutsideElsewhere(all[1..], q, mail, a, box);
    } else {
      OutsideHere(all[1..], q, mail, a, box);
    }
  }

  /** An actor enters the run queue, with its mail. */
  lemma {:induction false} OutsideEnters(all: seq<Actor>, q: seq<Actor>, q': seq<Actor>, mail: map<Actor, seq<Msg>>,
                                         a: Actor)
    requires NoDup(all) && a in all && a !in q && forall x :: x in q' <==> x in q || x == a
    ensures Outside(all, q, mail) == Outside(all, q', mail) + |MailOf(mail, a)|
  {
    if all[0] == a {
      OutsideSame(all[1..], q, q', mail);
    } else {
      OutsideEnters(all[1..], q, q', mail, a);
    }
  }

  lemma {:induction false} OutsideAtMost(all: seq<Actor>, q: seq<Actor>, mail: map<Actor, seq<Msg>>,
                                         pending: multiset<Actor>)
    requires NoDup(all) && forall a :: a in all && a !in q ==> |MailOf(mail, a)| <= pending[a]
    ensures Outside(all, q, mail) <= |pending|
  {
    if all != [] {
      var rest := pending[all[0] := 0];
      assert |rest| == |pending| - pending[all[0]];
      OutsideAtMost(all[1..], q, mail, rest);
    }
  }

  // ------------------------------------------------------------------------ the invariant

  /** The dispatcher will see to this actor. */
  ghost predicate InHand(s: Sched, a: Actor) {
    (s.stage.Popped? || s.stage.Taken? || s.stage.Again?) && s.stage.a == a
  }

  /** The run queue is in order, and an actor outside it that is not in hand has no more mail than posts to come. */
  ghost predicate Placed(s: Sched) {
    && NoDup(s.core.runq)
    && (forall a :: a in s.core.runq ==> a in s.core.mail)
    && (forall a :: a in s.core.mail && a !in s.core.runq && !InHand(s, a) ==> |s.core.mail[a]| <= s.pending[a])
    && (forall a :: InHand(s, a) ==> a in s.core.mail)
    && (s.stage.Again? ==> MailOf(s.core.mail, s.stage.a) != [])
  }

  /** The dispatcher has a token for what it took from the run queue, until it has taken the message. */
  function InDispatch(stage: Stage): nat {
    if stage.Woken? || stage.Popped? then 1 else 0
  }

  /** That token is spent without serving any of the mail: the actor in hand has none, or the only message
      is what it was scheduled again for. */
  function Wasted(s: Sched): nat {
    if s.stage.Popped? && |MailOf(s.core.mail, s.stage.a)| <= (if s.stage.a in s.core.runq then 1 else 0) then 1 else 0
  }

  function Owed(s: Sched, all: seq<Actor>): nat {
    Demand(s.core.runq, s.core.mail) + Outside(all, s.core.runq, s.core.mail) + Wasted(s)
  }

  /** The tokens, and those of the posts to come, are enough for all that waits. */
  ghost predicate Paid(s: Sched, all: seq<Actor>) {
    Owed(s, all) <= Funds(s)
  }

  function Funds(s: Sched): nat {
    s.core.tokens + |s.pending| + InDispatch(s.stage)
  }

  ghost predicate HalfInv(s: Sched, all: seq<Actor>) {
    Placed(s) && Lists(all, s.core.mail) && Paid(s, all)
  }

  /** The post finds its actor outside the run queue and without a message that is left to it. */
  predicate Belated(s: Sched, a: Actor) {
    a !in s.core.runq && |MailOf(s.core.mail, a)| <= if s.stage == Popped(a) then 1 else 0
  }

  /** No belated post, unless there is a token to spare. */
  ghost predicate Harmless(s: Sched, all: seq<Actor>, h: Half) {
    h.Posting? && Belated(s, h.a) ==> Owed(s, all) < Funds(s)
  }

  /** When no send or dispatch is half done, this is the invariant of atomic sends. */
  lemma AllPosted(s: Sched, all: seq<Actor>)
    requires Lists(all, s.core.mail) && s.pending == multiset{} && s.stage == Idle
    ensures HalfInv(s, all) <==> Inv(s.core)
  {
    DemandSplit(s.core.runq, s.core.mail);
    if Placed(s) || Inv(s.core) {
      OutsideAtMost(all, s.core.runq, s.core.mail, multiset{});
    }
  }

  lemma PutKeeps(s: Sched, all: seq<Actor>, a: Actor, m: Option<Msg>)
    requires HalfInv(s, all) && a in s.core.mail
    ensures HalfInv(HalfNext(s, Putting(a, m)), all)
  {
    if m.Some? && m.value !in s.core.mail[a] {
      var q, mail, box := s.core.runq, s.core.mail, s.core.mail[a] + [m.value];
      if a in q {
        DemandHere(q, mail, a, box);
        OutsideElsewhere(all, q, mail, a, box);
      } else {
        DemandElsewhere(q, mail, a, box);
        OutsideHere(all, q, mail, a, box);
      }
    }
  }

  /** A post keeps what is there to be paid, but for a belated one. */
  lemma PostPays(s: Sched, all: seq<Actor>, a: Actor)
    requires Placed(s) && Lists(all, s.core.mail) && HalfEnabled(s, Posting(a))
    ensures Placed(HalfNext(s, Posting(a)))
    ensures Owed(HalfNext(s, Posting(a)), all) == Owed(s, all) + if Belated(s, a) then 1 else 0
    ensures Funds(HalfNext(s, Posting(a))) == Funds(s)
  {
    hide Demand, Outside, NoDup;
    var q, mail := s.core.runq, s.core.mail;
    NoDupAdded(q, a);
    if a !in q {
      DemandAppend(q, a, mail);
      OutsideEnters(all, q, q + [a], mail, a);
    }
  }

  /** What waits and what there is to pay for it go on alike. */
  ghost predicate Alike(s: Sched, t: Sched, all: seq<Actor>) {
    Placed(t) && t.core.mail.Keys == s.core.mail.Keys && Owed(t, all) + Funds(s) == Owed(s, all) + Funds(t)
  }

  lemma PopPays(s: Sched, all: seq<Actor>)
    requires Placed(s) && Lists(all, s.core.mail) && s.stage == Woken && s.core.runq != []
    ensures Alike(s, Moved(s), all)
  {
    OutsideEnters(all, s.core.runq[1..], s.core.runq, s.core.mail, s.core.runq[0]);
  }

  lemma TakePays(s: Sched, all: seq<Actor>)
    requires Placed(s) && Lists(all, s.core.mail) && s.stage.Popped?
    ensures Alike(s, Moved(s), all)
  {
    var q, mail, a := s.core.runq, s.core.mail, s.stage.a;
    assert InHand(s, a);
    var box := mail[a];
    if box != [] {
      if a in q {
        DemandHere(q, mail, a, box[1..]);
        OutsideElsewhere(all, q, mail, a, box[1..]);
      } else {
        DemandElsewhere(q, mail, a, box[1..]);
        OutsideHere(all, q, mail, a, box[1..]);
      }
    }
  }

  lemma PushPays(s: Sched, all: seq<Actor>)
    requires Placed(s) && Lists(all, s.core.mail) && s.stage.Again?
    ensures Alike(s, Moved(s), all)
  {
    var q, mail, a := s.core.runq, s.core.mail, s.stage.a;
    assert InHand(s, a);
    NoDupAdded(q, a);
    if a !in q {
      DemandAppend(q, a, mail);
      OutsideEnters(all, q, q + [a], mail, a);
    }
  }

  /** A section of the dispatcher, but for one that finds no actor. */
  lemma MovePays(s: Sched, all: seq<Actor>)
    requires Placed(s) && Lists(all, s.core.mail) && (s.stage == Idle ==> s.core.tokens > 0)
    requires s.stage == Woken ==> s.core.runq != []
    ensures Alike(s, Moved(s), all)
  {
    match s.stage
    case Idle =>
    case Woken => PopPays(s, all);
    case Popped(a) => TakePays(s, all);
    case Taken(a) =>
    case Again(a) => PushPays(s, all);
  }

  lemma MoveKeeps(s: Sched, all: seq<Actor>)
    requires HalfInv(s, all) && (s.stage == Idle ==> s.core.tokens > 0)
    ensures HalfInv(Moved(s), all)
  {
    if s.stage == Woken && s.core.runq == [] {
      OutsideAtMost(all, [], s.core.mail, s.pending);
    } else {
      MovePays(s, all);
    }
  }

  /** One critical section keeps the invariant exactly if it is harmless. */
  lemma HalfKeeps(s: Sched, all: seq<Actor>, h: Half)
    requires HalfInv(s, all) && HalfEnabled(s, h)
    ensures HalfInv(HalfNext(s, h), all) <==> Harmless(s, all, h)
  {
    match h
    case Putting(a, m) => PutKeeps(s, all, a, m);
    case Posting(a) => PostPays(s, all, a);
    case Moving => MoveKeeps(s, all);
  }

  // -------------------------------------------------------------------------------- runs

  ghost predicate HalfLegal(s: Sched, steps: seq<Half>)
    decreases |steps|
  {
    steps == [] || (HalfEnabled(s, steps[0]) && HalfLegal(HalfNext(s, steps[0]), steps[1..]))
  }

  /** Every post of the run is harmless. */
  ghost predicate AllHarmless(s: Sched, all: seq<Actor>, steps: seq<Half>)
    requires HalfLegal(s, steps)
    decreases |steps|
  {
    steps != [] ==> Harmless(s, all, steps[0]) && AllHarmless(HalfNext(s, steps[0]), all, steps[1..])
  }

  /** The invariant holds at every point of the run. */
  ghost predicate HoldsAlong(s: Sched, all: seq<Actor>, steps: seq<Half>)
    requires HalfLegal(s, steps)
    decreases |steps|
  {
    HalfInv(s, all) && (steps != [] ==> HoldsAlong(HalfNext(s, steps[0]), all, steps[1..]))
  }

  /** Over every interleaving of the critical sections: the invariant holds throughout exactly if every post is
      harmless. */
  lemma {:induction false} HalvesExactly(s: Sched, all: seq<Actor>, steps: seq<Half>)
    requires HalfInv(s, all) && HalfLegal(s, steps)
    ensures HoldsAlong(s, all, steps) <==> AllHarmless(s, all, steps)
    decreases |steps|
  {
    if steps != [] {
      HalfKeeps(s, all, steps[0]);
      if Harmless(s, all, steps[0]) {
        HalvesExactly(HalfNext(s, steps[0]), all, steps[1..]);
      } else {
        assert !HoldsAlong(HalfNext(s, steps[0]), all, steps[1..]);
      }
    }
  }

  ghost function HalfRun(s: Sched, steps: seq<Half>): Sched
    requires HalfLegal(s, steps)
    decreases |steps|
  {
    if steps == [] then s else HalfRun(HalfNext(s, steps[0]), steps[1..])
  }

  /** So when no send is left half done nothing is stranded. */
  lemma {:induction false} NoneStranded(s: Sched, all: seq<Actor>, steps: seq<Half>)
    requires HalfInv(s, all) && HalfLegal(s, steps) && AllHarmless(s, all, steps)
    ensures HalfInv(HalfRun(s, steps), all)
    ensures HalfRun(s, steps).pending == multiset{} && HalfRun(s, steps).stage == Idle ==> Inv(HalfRun(s, steps).core)
    decreases |steps|
  {
    if steps == [] {
      if s.pending == multiset{} && s.stage == Idle {
        AllPosted(s, all);
      }
    } else {
      HalfKeeps(s, all, steps[0]);
      NoneStranded(HalfNext(s, steps[0]), all, steps[1..]);
    }
  }

  /** A send whose halves follow each other is harmless, and is the atomic one. */
  lemma AtomicIsHarmless(s: Sched, all: seq<Actor>, a: Actor, m: Option<Msg>)
    requires HalfInv(s, all) && a in s.core.mail && (m.Some? ==> m.value !in s.core.mail[a])
    ensures var t := HalfNext(s, Putting(a, m));
            && HalfEnabled(t, Posting(a)) && Harmless(t, all, Posting(a))
            && HalfNext(t, Posting(a)) == s.(core := Send(s.core, a, m))
  {
    assert s.pending + multiset{a} - multiset{a} == s.pending;
    if m.Some? && s.core.mail[a] == [] && a !in s.core.runq {
      assert Added(s.core.mail[a], m.value) == [m.value];
      DemandElsewhere(s.core.runq, s.core.mail, a, [m.value]);
      OutsideHere(all, s.core.runq, s.core.mail, a, [m.value]);
    }
  }

  // ---------------------------------------------------------------------------- the race

  ghost predicate HalfReaches(s: Sched, steps: seq<Half>, t: Sched) {
    HalfLegal(s, steps) && HalfRun(s, steps) == t
  }

  lemma {:induction false} HalfReachesMore(s: Sched, x: seq<Half>, t: Sched, y: seq<Half>, u: Sched)
    requires HalfReaches(s, x, t) && HalfReaches(t, y, u)
    ensures HalfReaches(s, x + y, u)
    decreases |x|
  {
    if x == [] {
      assert x + y == y;
    } else {
      assert (x + y)[1..] == x[1..] + y;
      HalfReachesMore(HalfNext(s, x[0]), x[1..], t, y, u);
    }
  }

  lemma ReachesOne(s: Sched, h: Half)
    requires HalfEnabled(s, h)
    ensures HalfReaches(s, [h], HalfNext(s, h))
  {
    assert [h][1..] == [];
    assert HalfReaches(HalfNext(s, h), [], HalfNext(s, h));
  }

  /** A dispatch in its critical sections, undisturbed, is the atomic one. */
  lemma DispatchInSteps(s: Sched) returns (steps: seq<Half>)
    requires s.stage == Idle && s.core.tokens > 0
    ensures HalfReaches(s, steps, s.(core := Dispatch(s.core)))
  {
    var w := Moved(s);
    ReachesOne(s, Moving);
    var p := Moved(w);
    ReachesOne(w, Moving);
    HalfReachesMore(s, [Moving], w, [Moving], p);
    steps := [Moving] + [Moving];
    if p.stage != Idle {
      var more := TakeInSteps(p);
      var a, box := s.core.runq[0], MailOf(s.core.mail, s.core.runq[0]);
      assert box != [] && |box| > 1 ==> box[1..] != [];
      HalfReachesMore(s, steps, p, more, s.(core := Dispatch(s.core)));
      steps := steps + more;
    }
  }

  lemma TakeInSteps(p: Sched) returns (steps: seq<Half>)
    requires p.stage.Popped?
    ensures var a, box := p.stage.a, MailOf(p.core.mail, p.stage.a);
            HalfReaches(p, steps, Sched(
              if box == [] then p.core
              else p.core.(runq := if |box| > 1 then Added(p.core.runq, a) else p.core.runq,
                           mail := p.core.mail[a := box[1..]]),
              p.pending, Idle))
  {
    var t := Moved(p);
    ReachesOne(p, Moving);
    steps := [Moving];
    if t.stage != Idle {
      var c := Moved(t);
      ReachesOne(t, Moving);
      HalfReachesMore(p, steps, t, [Moving], c);
      steps := steps + [Moving];
      if c.stage != Idle {
        ReachesOne(c, Moving);
        HalfReachesMore(p, steps, c, [Moving], Moved(c));
        steps := steps + [Moving];
      }
    }
  }

  ghost function Mail(x: seq<Msg>, y: seq<Msg>, z: seq<Msg>): map<Actor, seq<Msg>> {
    map[1 := x, 2 := y, 3 := z]
  }

  /** A core between sends and dispatches. */
  ghost function Rest(runq: seq<Actor>, tokens: nat, mail: map<Actor, seq<Msg>>, pending: multiset<Actor>): Sched {
    Sched(Core(runq, tokens, mail), pending, Idle)
  }

  lemma SendReaches(s: Sched, a: Actor, m: Msg, box: seq<Msg>, q: seq<Actor>, mail: map<Actor, seq<Msg>>)
    requires s.stage == Idle && a in s.core.mail && m !in s.core.mail[a] && box == s.core.mail[a] + [m]
    requires q == Added(s.core.runq, a) && mail == s.core.mail[a := box]
    ensures HalfReaches(s, [Putting(a, Some(m))] + [Posting(a)], Rest(q, s.core.tokens + 1, mail, s.pending))
  {
    var t := HalfNext(s, Putting(a, Some(m)));
    ReachesOne(s, Putting(a, Some(m)));
    ReachesOne(t, Posting(a));
    assert s.pending + multiset{a} - multiset{a} == s.pending;
    HalfReachesMore(s, [Putting(a, Some(m))], t, [Posting(a)], HalfNext(t, Posting(a)));
  }

  lemma TakeReaches(s: Sched, a: Actor, rest: seq<Actor>, box: seq<Msg>, q: seq<Actor>, mail: map<Actor, seq<Msg>>)
    returns (steps: seq<Half>)
    requires s.stage == Idle && s.core.tokens > 0 && s.core.runq == [a] + rest && a in s.core.mail
    requires if s.core.mail[a] == [] then box == [] && q == rest && mail == s.core.mail
             else
               && box == s.core.mail[a][1..] && q == (if box == [] then rest else Added(rest, a))
               && mail == s.core.mail[a := box]
    ensures HalfReaches(s, steps, Rest(q, s.core.tokens - 1, mail, s.pending))
  {
    assert s.core.runq[1..] == rest;
    steps := DispatchInSteps(s);
  }

  /**
   * The second message to actor 1 is posted only after it and all that was sent later have been served: the
   * post schedules an idle actor, which takes the token of the message to actor 3. All sends are complete in
   * the end, and that message waits in a core that has no token left.
   */
  lemma SplitSendStrands(s: Sched, t: Sched) returns (steps: seq<Half>)
    requires s == Rest([], 0, Mail([], [], []), multiset{}) && t == Rest([3], 0, Mail([], [], [30]), multiset{})
    ensures Inv(s.core) && HalfReaches(s, steps, t) && !Inv(t.core)
  {
    var u := Rest([1, 2], 1, Mail([11], [20], []), multiset{1});
    var x := RaceBegins(s, u);
    var y := RaceEnds(u, t);
    HalfReachesMore(s, x, u, y, t);
    steps := x + y;
    Stranded(t.core, 3);
  }

  lemma Stranded(c: Core, a: Actor)
    requires a in c.mail && c.mail[a] != [] && c.tokens == 0
    ensures !Inv(c)
  {
    if Inv(c) {
      NotStranded(c);
    }
  }

  lemma RaceBegins(s: Sched, t: Sched) returns (steps: seq<Half>)
    requires s == Rest([], 0, Mail([], [], []), multiset{}) && t == Rest([1, 2], 1, Mail([11], [20], []), multiset{1})
    ensures HalfReaches(s, steps, t)
  {
    var s1 := Rest([1], 1, Mail([10], [], []), multiset{});
    assert s.core.mail[1 := [10]] == s1.core.mail;
    SendReaches(s, 1, 10, [10], [1], s1.core.mail);
    var s2 := Rest([1], 1, Mail([10, 11], [], []), multiset{1});
    assert s1.core.mail[1 := [10, 11]] == s2.core.mail;
    assert Added([10], 11) == [10, 11];
    ReachesOne(s1, Putting(1, Some(11)));
    var s3 := Rest([1], 0, Mail([11], [], []), multiset{1});
    assert s2.core.mail[1 := [11]] == s3.core.mail;
    var take := TakeReaches(s2, 1, [], [11], [1], s3.core.mail);
    assert s3.core.mail[2 := [20]] == t.core.mail;
    SendReaches(s3, 2, 20, [20], [1, 2], t.core.mail);
    var send1, put, send2 := [Putting(1, Some(10))] + [Posting(1)], [Putting(1, Some(11))],
      [Putting(2, Some(20))] + [Posting(2)];
    HalfReachesMore(s2, take, s3, send2, t);
    HalfReachesMore(s1, put, s2, take + send2, t);
    HalfReachesMore(s, send1, s1, put + (take + send2), t);
    steps := send1 + (put + (take + send2));
  }

  lemma RaceEnds(s: Sched, t: Sched) returns (steps: seq<Half>)
    requires s == Rest([1, 2], 1, Mail([11], [20], []), multiset{1})
             && t == Rest([3], 0, Mail([], [], [30]), multiset{})
    ensures HalfReaches(s, steps, t)
  {
    var s1 := Rest([2], 0, Mail([], [20], []), multiset{1});
    assert s.core.mail[1 := []] == s1.core.mail;
    var take1 := TakeReaches(s, 1, [2], [], [2], s1.core.mail);
    var s2 := Rest([2, 1], 1, Mail([], [20], []), multiset{});
    ReachesOne(s1, Posting(1));
    var s3 := Rest([1], 0, Mail([], [], []), multiset{});
    assert s2.core.mail[2 := []] == s3.core.mail;
    var take2 := TakeReaches(s2, 2, [1], [], [1], s3.core.mail);
    var last := RaceLast(s3, t);
    HalfReachesMore(s2, take2, s3, last, t);
    HalfReachesMore(s1, [Posting(1)], s2, take2 + last, t);
    HalfReachesMore(s, take1, s1, [Posting(1)] + (take2 + last), t);
    steps := take1 + ([Posting(1)] + (take2 + last));
  }

  lemma RaceLast(s: Sched, t: Sched) returns (steps: seq<Half>)
    requires s == Rest([1], 0, Mail([], [], []), multiset{}) && t == Rest([3], 0, Mail([], [], [30]), multiset{})
    ensures HalfReaches(s, steps, t)
  {
    var s1 := Rest([1, 3], 1, Mail([], [], [30]), multiset{});
    assert s.core.mail[3 := [30]] == s1.core.mail;
    SendReaches(s, 3, 30, [30], [1, 3], s1.core.mail);
    var take := TakeReaches(s1, 1, [3], [], [3], s1.core.mail);
    HalfReachesMore(s, [Putting(3, Some(30))] + [Posting(3)], s1, take, t);
    steps := [Putting(3, Some(30))] + [Posting(3)] + take;
  }

  // ------------------------------------------------------------------- what a belated post does

  /** The sends that are half done are to actors that exist. */
  ghost predicate Known(s: Sched) {
    forall a :: a in s.pending ==> a in s.core.mail
  }

  /** A message waits, no token is left, and no send or dispatch is under way. */
  ghost predicate Stuck(s: Sched) {
    && s.pending == multiset{} && s.stage == Idle && s.core.tokens == 0
    && exists a :: a in s.core.mail && s.core.mail[a] != []
  }

  /** While the invariant holds no message is stuck. */
  lemma PaidIsNotStuck(s: Sched, all: seq<Actor>)
    requires HalfInv(s, all)
    ensures !Stuck(s)
  {
    if s.pending == multiset{} && s.stage == Idle {
      AllPosted(s, all);
      NotStranded(s.core);
    }
  }

  /** Whatever is half done is completed, and the tokens are spent. */
  lemma {:induction false} ComesToRest(s: Sched, all: seq<Actor>) returns (steps: seq<Half>, t: Sched)
    requires Placed(s) && Lists(all, s.core.mail) && Known(s) && Owed(s, all) > Funds(s)
    ensures HalfReaches(s, steps, t) && t.pending == multiset{} && t.stage == Idle && t.core.tokens == 0
    ensures Placed(t) && Lists(all, t.core.mail) && Owed(t, all) > Funds(t)
    decreases |s.pending|, s.core.tokens, Rank(s.stage)
  {
    if s.pending != multiset{} {
      var a :| a in s.pending;
      PostPays(s, all, a);
      steps, t := Onwards(s, Posting(a), all);
    } else if s.stage != Idle || s.core.tokens > 0 {
      if s.stage == Woken && s.core.runq == [] {
        OutsideAtMost(all, [], s.core.mail, s.pending);
        assert false;
      }
      MovePays(s, all);
      steps, t := Onwards(s, Moving, all);
    } else {
      steps, t := [], s;
    }
  }

  function Rank(stage: Stage): nat {
    match stage
    case Idle => 0
    case Woken => 4
    case Popped(_) => 3
    case Taken(_) => 2
    case Again(_) => 1
  }

  lemma {:induction false} Onwards(s: Sched, h: Half, all: seq<Actor>) returns (steps: seq<Half>, t: Sched)
    requires HalfEnabled(s, h)
    requires var n := HalfNext(s, h);
             && Placed(n) && Lists(all, n.core.mail) && Known(n) && Owed(n, all) > Funds(n)
             && (|| |n.pending| < |s.pending|
                 || (|n.pending| == |s.pending|
                     && (n.core.tokens < s.core.tokens
                         || (n.core.tokens == s.core.tokens && Rank(n.stage) < Rank(s.stage)))))
    ensures HalfReaches(s, steps, t) && t.pending == multiset{} && t.stage == Idle && t.core.tokens == 0
    ensures Placed(t) && Lists(all, t.core.mail) && Owed(t, all) > Funds(t)
    decreases |s.pending|, s.core.tokens, Rank(s.stage), 0
  {
    var n := HalfNext(s, h);
    var more;
    more, t := ComesToRest(n, all);
    ReachesOne(s, h);
    HalfReachesMore(s, [h], n, more, t);
    steps := [h] + more;
  }

  /** An idle actor at the head of the run queue takes the token of the next message to another one. */
  lemma NextIsStuck(s: Sched, b: Actor, m: Msg) returns (steps: seq<Half>, t: Sched)
    requires s.pending == multiset{} && s.stage == Idle && s.core.tokens == 0
    requires s.core.runq != [] && b != s.core.runq[0] && b in s.core.mail
    requires MailOf(s.core.mail, s.core.runq[0]) == [] && s.core.mail[b] == []
    ensures HalfReaches(s, steps, t) && Stuck(t)
  {
    var q, mail := Added(s.core.runq, b), s.core.mail[b := [m]];
    assert [] + [m] == [m];
    SendReaches(s, b, m, [m], q, mail);
    var sent := Rest(q, 1, mail, multiset{});
    var send := [Putting(b, Some(m))] + [Posting(b)];
    assert q[0] == s.core.runq[0] && MailOf(mail, q[0]) == [];
    var take := DispatchInSteps(sent);
    t := sent.(core := Dispatch(sent.core));
    HalfReachesMore(s, send, sent, take, t);
    steps := send + take;
    assert t.core.mail[b] == [m];
  }

  /** Where more waits than is paid for, and there are two actors, some run leaves a message without a token. */
  lemma DeficitStrands(s: Sched, all: seq<Actor>) returns (steps: seq<Half>, t: Sched)
    requires Placed(s) && Lists(all, s.core.mail) && Known(s) && Owed(s, all) > Funds(s) && |all| >= 2
    ensures HalfReaches(s, steps, t) && Stuck(t)
  {
    steps, t := ComesToRest(s, all);
    if a :| a in t.core.mail && t.core.mail[a] != [] {
      return;
    }
    OutsideAtMost(all, t.core.runq, t.core.mail, multiset{});
    assert t.core.runq != [];
    var head := t.core.runq[0];
    var b := if all[0] == head then all[1] else all[0];
    assert all[1] in all[1..];
    var more, u := NextIsStuck(t, b, 0);
    HalfReachesMore(s, steps, t, more, u);
    steps, t := steps + more, u;
  }

  /** So it is after every post that is not harmless. */
  lemma HarmStrands(s: Sched, all: seq<Actor>, h: Half) returns (steps: seq<Half>, t: Sched)
    requires HalfInv(s, all) && Known(s) && HalfEnabled(s, h) && !Harmless(s, all, h) && |all| >= 2
    ensures HalfReaches(s, [h] + steps, t) && Stuck(t)
  {
    PostPays(s, all, h.a);
    var n := HalfNext(s, h);
    steps, t := DeficitStrands(n, all);
    ReachesOne(s, h);
    HalfReachesMore(s, [h], n, steps, t);
  }
}
