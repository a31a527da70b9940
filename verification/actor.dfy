/**
 * The actor system (modules/actor/src/actor.c and actor_timer.c) as built by default, with one
 * priority: its core, the message pool and the timers that hold deferred messages.
 */
module ActorSystem {
  import opened Basics
  import opened ActorCore

  type Timer = nat

  datatype Record = Record(actor: Actor, msg: Option<Msg>, timeout: nat)

  /** Where a message of the pool is. */
  datatype Place = Pool | Owned | Mailbox(a: Actor) | Deferred(t: Timer)

  datatype Rc = OK | EALREADY | ENOSPC

  // ---------------------------------------------------------------- what always holds

  /** Every message is in exactly one place. */
  ghost predicate Places(free: seq<Msg>, mail: map<Actor, seq<Msg>>, at: map<Msg, Place>) {
    && ListOk(free, Pool, at)
    && (forall a :: a in mail ==> ListOk(mail[a], Mailbox(a), at))
    && (forall m :: m in at && at[m].Mailbox? ==> at[m].a in mail)
  }

  /** The list holds the messages of that place, each once. */
  ghost predicate ListOk(list: seq<Msg>, place: Place, at: map<Msg, Place>) {
    NoDup(list) && forall m :: m in list <==> m in at && at[m] == place
  }

  /** What was sent to an actor is what it handled followed by what it has in its mailbox. */
  ghost predicate History(mail: map<Actor, seq<Msg>>, sent: map<Actor, seq<Msg>>, handled: map<Actor, seq<Msg>>) {
    && sent.Keys == mail.Keys && handled.Keys == mail.Keys
    && forall a :: a in mail ==> sent[a] == handled[a] + mail[a]
  }

  /** Timers are free or armed or held by the caller; one that is not free owns its message. */
  ghost predicate TimersOk(timers: map<Timer, Record>, spare: seq<Timer>, armed: seq<Timer>,
                           actors: set<Actor>, at: map<Msg, Place>) {
    && NoDup(spare) && NoDup(armed)
    && (forall t :: t in spare ==> t in timers && t !in armed)
    && (forall t :: t in armed ==> t in timers)
    && (forall t :: t in timers && t !in spare ==> Loaded(timers[t], t, actors, at))
  }

  ghost predicate Loaded(r: Record, t: Timer, actors: set<Actor>, at: map<Msg, Place>) {
    r.actor in actors && (r.msg.Some? ==> r.msg.value in at && at[r.msg.value] == Deferred(t))
  }

  /** The countdowns agree with the times at which the timers are due. */
  ghost predicate TimeOk(timers: map<Timer, Record>, list: seq<Timer>, due: map<Timer, nat>, clock: nat) {
    forall t :: t in list ==> t in timers && t in due && due[t] == clock + timers[t].timeout
  }

  // ------------------------------------------------------------- messages change places

  lemma ListGains(list: seq<Msg>, place: Place, at: map<Msg, Place>, m: Msg)
    requires ListOk(list, place, at) && m in at && at[m] != place
    ensures ListOk(list + [m], place, at[m := place])
  {
    NoDupAdded(list, m);
  }

  lemma ListLoses(list: seq<Msg>, place: Place, at: map<Msg, Place>, other: Place)
    requires list != [] && ListOk(list, place, at) && other != place
    ensures list[0] in at && at[list[0]] == place
    ensures ListOk(list[1..], place, at[list[0] := other])
  {
    assert list[0] in list && list == [list[0]] + list[1..];
  }

  lemma ListStays(list: seq<Msg>, place: Place, at: map<Msg, Place>, m: Msg, other: Place)
    requires ListOk(list, place, at) && m in at && at[m] != place && other != place
    ensures ListOk(list, place, at[m := other])
  {
  }

  /** A message that is in no list goes into a mailbox. */
  lemma IntoMailbox(free: seq<Msg>, mail: map<Actor, seq<Msg>>, at: map<Msg, Place>, a: Actor, m: Msg)
    requires Places(free, mail, at) && a in mail && m in at && (at[m].Owned? || at[m].Deferred?)
    ensures Places(free, mail[a := mail[a] + [m]], at[m := Mailbox(a)])
  {
    var mail', at' := mail[a := mail[a] + [m]], at[m := Mailbox(a)];
    ListStays(free, Pool, at, m, Mailbox(a));
    forall b | b in mail' ensures ListOk(mail'[b], Mailbox(b), at') {
      if b == a {
        ListGains(mail[a], Mailbox(a), at, m);
      } else {
        assert b in mail;
        ListStays(mail[b], Mailbox(b), at, m, Mailbox(a));
      }
    }
  }

  /** The first message of a mailbox becomes its handler's. */
  lemma OutOfMailbox(free: seq<Msg>, mail: map<Actor, seq<Msg>>, at: map<Msg, Place>, a: Actor)
    requires Places(free, mail, at) && a in mail && mail[a] != []
    ensures mail[a][0] in at && at[mail[a][0]] == Mailbox(a)
    ensures Places(free, mail[a := mail[a][1..]], at[mail[a][0] := Owned])
  {
    var m := mail[a][0];
    var mail', at' := mail[a := mail[a][1..]], at[m := Owned];
    ListLoses(mail[a], Mailbox(a), at, Owned);
    ListStays(free, Pool, at, m, Owned);
    forall b | b in mail' ensures ListOk(mail'[b], Mailbox(b), at') {
      if b != a {
        assert b in mail;
        ListStays(mail[b], Mailbox(b), at, m, Owned);
      }
    }
  }

  lemma OutOfPool(free: seq<Msg>, mail: map<Actor, seq<Msg>>, at: map<Msg, Place>)
    requires Places(free, mail, at) && free != []
    ensures free[0] in at && at[free[0]] == Pool
    ensures Places(free[1..], mail, at[free[0] := Owned])
  {
    ListLoses(free, Pool, at, Owned);
    forall b | b in mail ensures ListOk(mail[b], Mailbox(b), at[free[0] := Owned]) {
      ListStays(mail[b], Mailbox(b), at, free[0], Owned);
    }
  }

  lemma IntoPool(free: seq<Msg>, mail: map<Actor, seq<Msg>>, at: map<Msg, Place>, m: Msg)
    requires Places(free, mail, at) && m in at && at[m] == Owned
    ensures Places(free + [m], mail, at[m := Pool])
  {
    ListGains(free, Pool, at, m);
    forall b | b in mail ensures ListOk(mail[b], Mailbox(b), at[m := Pool]) {
      ListStays(mail[b], Mailbox(b), at, m, Pool);
    }
  }

  /** Between its owner and a timer a message is in no list. */
  lemma NoList(free: seq<Msg>, mail: map<Actor, seq<Msg>>, at: map<Msg, Place>, m: Msg, place: Place)
    requires Places(free, mail, at) && m in at && (at[m].Owned? || at[m].Deferred?) && (place.Owned? || place.Deferred?)
    ensures Places(free, mail, at[m := place])
  {
    ListStays(free, Pool, at, m, place);
    forall b | b in mail ensures ListOk(mail[b], Mailbox(b), at[m := place]) {
      ListStays(mail[b], Mailbox(b), at, m, place);
    }
  }

  /** No timer minds the move of a message that no timer owns. */
  lemma TimersElsewhere(timers: map<Timer, Record>, spare: seq<Timer>, armed: seq<Timer>,
                        actors: set<Actor>, at: map<Msg, Place>, m: Msg, place: Place)
    requires TimersOk(timers, spare, armed, actors, at) && m in at && !at[m].Deferred?
    ensures TimersOk(timers, spare, armed, actors, at[m := place])
  {
    forall t | t in timers && t !in spare ensures Loaded(timers[t], t, actors, at[m := place]) {
      assert Loaded(timers[t], t, actors, at);
    }
  }

  // -------------------------------------------------------------------------- the core

  lemma SendMail(c: Core, a: Actor, m: Option<Msg>)
    requires a in c.mail
    ensures Send(c, a, m).mail == if m.None? || m.value in c.mail[a] then c.mail else c.mail[a := c.mail[a] + [m.value]]
  {
  }

  lemma DispatchMail(c: Core)
    requires Inv(c) && c.tokens > 0
    ensures c.runq != [] ==> c.runq[0] in c.mail
    ensures Dispatch(c).mail ==
            if c.runq == [] || c.mail[c.runq[0]] == [] then c.mail else c.mail[c.runq[0] := c.mail[c.runq[0]][1..]]
  {
  }

  lemma SentHistory(mail: map<Actor, seq<Msg>>, sent: map<Actor, seq<Msg>>, handled: map<Actor, seq<Msg>>, a: Actor,
                    m: Msg)
    requires History(mail, sent, handled) && a in mail
    ensures History(mail[a := mail[a] + [m]], sent[a := sent[a] + [m]], handled)
  {
  }

  lemma HandledHistory(mail: map<Actor, seq<Msg>>, sent: map<Actor, seq<Msg>>, handled: map<Actor, seq<Msg>>, a: Actor)
    requires History(mail, sent, handled) && a in mail && mail[a] != []
    ensures History(mail[a := mail[a][1..]], sent, handled[a := handled[a] + [mail[a][0]]])
  {
    assert mail[a] == [mail[a][0]] + mail[a][1..];
  }

  /** The core and its messages are in order. */
  ghost predicate MailOk(core: Core, free: seq<Msg>, at: map<Msg, Place>,
                         sent: map<Actor, seq<Msg>>, handled: map<Actor, seq<Msg>>) {
    Inv(core) && Places(free, core.mail, at) && History(core.mail, sent, handled)
  }

  /** What actor_send demands: the message is the caller's, or in this mailbox already. */
  ghost predicate Sendable(a: Actor, m: Option<Msg>, at: map<Msg, Place>) {
    m.Some? ==> m.value in at && (at[m.value] == Owned || at[m.value] == Mailbox(a))
  }

  ghost function SentPlaces(at: map<Msg, Place>, a: Actor, m: Option<Msg>): map<Msg, Place> {
    if m.Some? then at[m.value := Mailbox(a)] else at
  }

  ghost function SentTo(sent: map<Actor, seq<Msg>>, a: Actor, m: Option<Msg>): map<Actor, seq<Msg>> {
    if m.Some? && a in sent then sent[a := sent[a] + [m.value]] else sent
  }

  lemma SendOk(core: Core, free: seq<Msg>, at: map<Msg, Place>, sent: map<Actor, seq<Msg>>,
               handled: map<Actor, seq<Msg>>,
               a: Actor, m: Option<Msg>)
    requires MailOk(core, free, at, sent, handled) && a in core.mail
    requires m.Some? ==> m.value in at && (at[m.value].Owned? || at[m.value].Deferred?)
    ensures m.Some? ==> m.value !in core.mail[a]
    ensures MailOk(Send(core, a, m), free, SentPlaces(at, a, m), SentTo(sent, a, m), handled)
  {
    assert ListOk(core.mail[a], Mailbox(a), at);
    SendKeeps(core, a, m);
    SendMail(core, a, m);
    if m.Some? {
      IntoMailbox(free, core.mail, at, a, m.value);
      SentHistory(core.mail, sent, handled, a, m.value);
    }
  }

  ghost function TakenPlaces(c: Core, at: map<Msg, Place>): map<Msg, Place> {
    if NextMsg(c).Some? then at[NextMsg(c).value := Owned] else at
  }

  ghost function TakenBy(c: Core, handled: map<Actor, seq<Msg>>): map<Actor, seq<Msg>> {
    if NextMsg(c).Some? && c.runq[0] in handled
    then handled[c.runq[0] := handled[c.runq[0]] + [NextMsg(c).value]]
    else handled
  }

  lemma DispatchOk(core: Core, free: seq<Msg>, at: map<Msg, Place>, sent: map<Actor, seq<Msg>>,
                   handled: map<Actor, seq<Msg>>)
    requires MailOk(core, free, at, sent, handled) && core.tokens > 0
    ensures NextMsg(core).Some? ==> core.runq[0] in handled && NextMsg(core).value in at
    ensures MailOk(Dispatch(core), free, TakenPlaces(core, at), sent, TakenBy(core, handled))
  {
    DispatchKeeps(core);
    DispatchMail(core);
    if core.runq != [] && core.mail[core.runq[0]] != [] {
      OutOfMailbox(free, core.mail, at, core.runq[0]);
      HandledHistory(core.mail, sent, handled, core.runq[0]);
    }
  }

  /** The timers do not mind a dispatch. */
  lemma DispatchTimers(core: Core, free: seq<Msg>, at: map<Msg, Place>, sent: map<Actor, seq<Msg>>,
                       handled: map<Actor, seq<Msg>>,
                       timers: map<Timer, Record>, spare: seq<Timer>, armed: seq<Timer>)
    requires MailOk(core, free, at, sent, handled) && core.tokens > 0
             && TimersOk(timers, spare, armed, core.mail.Keys, at)
    ensures TimersOk(timers, spare, armed, Dispatch(core).mail.Keys, TakenPlaces(core, at))
  {
    DispatchMail(core);
    if core.runq != [] && core.mail[core.runq[0]] != [] {
      OutOfMailbox(free, core.mail, at, core.runq[0]);
      TimersElsewhere(timers, spare, armed, core.mail.Keys, at, core.mail[core.runq[0]][0], Owned);
    }
    assert Dispatch(core).mail.Keys == core.mail.Keys;
  }

  lemma NewActor(core: Core, free: seq<Msg>, at: map<Msg, Place>, sent: map<Actor, seq<Msg>>,
                 handled: map<Actor, seq<Msg>>, a: Actor)
    requires MailOk(core, free, at, sent, handled) && a !in core.mail
    ensures MailOk(core.(mail := core.mail[a := []]), free, at, sent[a := []], handled[a := []])
  {
    NewInCore(core, a);
    NewMailbox(free, core.mail, at, a);
  }

  lemma NewMailbox(free: seq<Msg>, mail: map<Actor, seq<Msg>>, at: map<Msg, Place>, a: Actor)
    requires Places(free, mail, at) && a !in mail
    ensures Places(free, mail[a := []], at)
  {
    var mail' := mail[a := []];
    forall b | b in mail' ensures ListOk(mail'[b], Mailbox(b), at) {
      if b != a {
        assert b in mail;
      }
    }
  }

  lemma NewInCore(core: Core, a: Actor)
    requires Inv(core) && a !in core.mail
    ensures Inv(core.(mail := core.mail[a := []]))
  {
    DemandElsewhere(core.runq, core.mail, a, []);
    DemandSplit(core.runq, core.mail);
    DemandSplit(core.runq, core.mail[a := []]);
  }

  lemma NewTimers(timers: map<Timer, Record>, spare: seq<Timer>, armed: seq<Timer>, actors: set<Actor>,
                  at: map<Msg, Place>, a: Actor)
    requires TimersOk(timers, spare, armed, actors, at)
    ensures TimersOk(timers, spare, armed, actors + {a}, at)
  {
    forall t | t in timers && t !in spare ensures Loaded(timers[t], t, actors + {a}, at) {
      assert Loaded(timers[t], t, actors, at);
    }
  }

  lemma SendTimers(timers: map<Timer, Record>, spare: seq<Timer>, armed: seq<Timer>, actors: set<Actor>,
                   at: map<Msg, Place>,
                   a: Actor, m: Option<Msg>)
    requires TimersOk(timers, spare, armed, actors, at) && (m.Some? ==> m.value in at && !at[m.value].Deferred?)
    ensures TimersOk(timers, spare, armed, actors, SentPlaces(at, a, m))
  {
    if m.Some? {
      TimersElsewhere(timers, spare, armed, actors, at, m.value, Mailbox(a));
    }
  }

  /** The loops that fill the free lists. */
  method AddUpTo(n: nat) returns (list: seq<nat>)
    ensures |list| == n && NoDup<nat>(list)
  {
    list := [];
    for i: nat := 0 to n
      invariant |list| == i && NoDup<nat>(list) && forall x :: x in list ==> x < i
    {
      NoDupAdded<nat>(list, i);
      var added, longer := AddIfNotExist<nat>(list, i);
      list := longer;
    }
  }

  lemma MapSize(list: seq<Msg>, at: map<Msg, Place>)
    requires NoDup(list) && at.Keys == SetOf(list)
    ensures |at| == |list|
  {
    NoDupSize(list);
    assert |at| == |at.Keys|;
  }

  // ------------------------------------------------------------------ conservation

  ghost function SetOf(q: seq<Msg>): set<Msg> {
    set m | m in q
  }

  /** The messages that are not in the pool. */
  ghost function Out(at: map<Msg, Place>): set<Msg> {
    set m | m in at && at[m] != Pool
  }

  lemma {:induction false} NoDupSize(q: seq<Msg>)
    requires NoDup(q)
    ensures |SetOf(q)| == |q|
  {
    if q != [] {
      NoDupSize(q[1..]);
      assert q[0] !in SetOf(q[1..]) && SetOf(q) == SetOf(q[1..]) + {q[0]};
    }
  }

  /** The pool holds what is not out. */
  lemma PoolConserved(free: seq<Msg>, at: map<Msg, Place>)
    requires ListOk(free, Pool, at)
    ensures |free| + |Out(at)| == |at|
  {
    NoDupSize(free);
    assert SetOf(free) !! Out(at) && SetOf(free) + Out(at) == at.Keys;
  }

  // ------------------------------------------------------------------- the whole system

  /** The system at one moment, with the history that explains it. */
  datatype World = World(
    core: Core,
    free: seq<Msg>,
    pool: nat,
    timers: map<Timer, Record>,
    spare: seq<Timer>,
    armed: seq<Timer>,
    at: map<Msg, Place>,
    sent: map<Actor, seq<Msg>>,
    handled: map<Actor, seq<Msg>>)

  /** The system is in order. */
  ghost predicate Steady(w: World) {
    && MailOk(w.core, w.free, w.at, w.sent, w.handled) && |w.at| == w.pool
    && TimersOk(w.timers, w.spare, w.armed, w.core.mail.Keys, w.at)
  }

  /** The timers' countdowns, with the times at which they are due. */
  datatype Times = Times(timers: map<Timer, Record>, armed: seq<Timer>, due: map<Timer, nat>, clock: nat)

  ghost predicate OnTime(s: Times) {
    TimeOk(s.timers, s.armed, s.due, s.clock)
  }

  ghost function AllocatedIn(w: World): World {
    if w.free == [] then w else w.(free := w.free[1..], at := w.at[w.free[0] := Owned])
  }

  lemma FreeIsPooled(w: World)
    requires Steady(w) && w.free != []
    ensures w.free[0] in w.at && w.at[w.free[0]] == Pool
  {
    assert w.free[0] in w.free;
  }

  lemma AllocSteady(w: World)
    requires Steady(w)
    ensures Steady(AllocatedIn(w))
  {
    if w.free != [] {
      OutOfPool(w.free, w.core.mail, w.at);
      TimersElsewhere(w.timers, w.spare, w.armed, w.core.mail.Keys, w.at, w.free[0], Owned);
    }
  }

  ghost predicate Freeable(m: Option<Msg>, at: map<Msg, Place>) {
    m.Some? ==> m.value in at && (at[m.value] == Owned || at[m.value] == Pool)
  }

  ghost function FreedIn(w: World, m: Option<Msg>): World {
    if m.None? then w else w.(free := Added(w.free, m.value), at := w.at[m.value := Pool])
  }

  lemma FreeSteady(w: World, m: Option<Msg>)
    requires Steady(w) && Freeable(m, w.at)
    ensures Steady(FreedIn(w, m))
  {
    if m.Some? {
      if m.value in w.free {
        assert w.at[m.value := Pool] == w.at;
      } else {
        IntoPool(w.free, w.core.mail, w.at, m.value);
        TimersElsewhere(w.timers, w.spare, w.armed, w.core.mail.Keys, w.at, m.value, Pool);
      }
    }
  }

  lemma FreeAgain(w: World, m: Option<Msg>)
    requires Steady(w) && Freeable(m, w.at)
    ensures m.Some? && m.value in w.free ==> m.value in w.at && w.at[m.value := Pool] == w.at
  {
  }

  ghost function NewActorIn(w: World, a: Actor): World {
    w.(core := w.core.(mail := w.core.mail[a := []]), sent := w.sent[a := []], handled := w.handled[a := []])
  }

  lemma NewActorSteady(w: World, a: Actor)
    requires Steady(w) && a !in w.core.mail
    ensures Steady(NewActorIn(w, a))
  {
    hide MailOk, TimersOk;
    NewActor(w.core, w.free, w.at, w.sent, w.handled, a);
    NewTimers(w.timers, w.spare, w.armed, w.core.mail.Keys, w.at, a);
    assert w.core.mail[a := []].Keys == w.core.mail.Keys + {a};
  }

  ghost function SentIn(w: World, a: Actor, m: Option<Msg>): World
    requires a in w.core.mail
  {
    if m.Some? && m.value in w.core.mail[a] then w
    else w.(core := Send(w.core, a, m), at := SentPlaces(w.at, a, m), sent := SentTo(w.sent, a, m))
  }

  /** A send by the owner of the message. */
  lemma SendSteady(w: World, a: Actor, m: Option<Msg>)
    requires Steady(w) && a in w.core.mail && Sendable(a, m, w.at)
    ensures Steady(SentIn(w, a, m))
  {
    assert ListOk(w.core.mail[a], Mailbox(a), w.at);
    if m.None? || m.value !in w.core.mail[a] {
      SendOk(w.core, w.free, w.at, w.sent, w.handled, a, m);
      SendMail(w.core, a, m);
      assert Send(w.core, a, m).mail.Keys == w.core.mail.Keys;
      SendTimers(w.timers, w.spare, w.armed, w.core.mail.Keys, w.at, a, m);
    }
  }

  lemma HasHistory(w: World, a: Actor)
    requires Steady(w) && a in w.core.mail
    ensures a in w.sent && a in w.handled && w.sent[a] == w.handled[a] + w.core.mail[a]
  {
  }

  ghost function DispatchedIn(w: World): World
    requires w.core.tokens > 0
  {
    w.(core := Dispatch(w.core), at := TakenPlaces(w.core, w.at), handled := TakenBy(w.core, w.handled))
  }

  lemma DispatchSteady(w: World)
    requires Steady(w) && w.core.tokens > 0
    ensures forall a :: a in w.core.runq ==> a in w.core.mail
    ensures Steady(DispatchedIn(w))
  {
    DispatchOk(w.core, w.free, w.at, w.sent, w.handled);
    DispatchTimers(w.core, w.free, w.at, w.sent, w.handled, w.timers, w.spare, w.armed);
  }

  lemma NextIsKnown(w: World)
    requires Steady(w) && w.core.runq != []
    ensures var a := w.core.runq[0];
            && a in w.core.mail && a in w.handled && a !in w.core.runq[1..]
            && (w.core.mail[a] != [] ==> w.core.mail[a][0] in w.at)
  {
    var a := w.core.runq[0];
    assert ListOk(w.core.mail[a], Mailbox(a), w.at);
    assert w.core.mail[a] != [] ==> w.core.mail[a][0] in w.core.mail[a];
  }

  lemma DrainedHistory(w: World)
    requires Steady(w) && w.core.tokens == 0
    ensures w.handled == w.sent && forall a :: a in w.core.mail ==> w.core.mail[a] == []
  {
    NotStranded(w.core);
    forall a | a in w.sent ensures w.sent[a] == w.handled[a] {
      assert w.sent[a] == w.handled[a] + [];
    }
  }

  // ------------------------------------------------------------------------ timers

  /** list_del */
  function Removed(q: seq<Timer>, t: Timer): seq<Timer> {
    if q == [] then [] else if q[0] == t then q[1..] else [q[0]] + Removed(q[1..], t)
  }

  lemma {:induction false} RemovedOnce(q: seq<Timer>, t: Timer)
    requires NoDup(q)
    ensures NoDup(Removed(q, t)) && forall x :: x in Removed(q, t) <==> x in q && x != t
  {
    if q != [] {
      assert q == [q[0]] + q[1..];
      if q[0] != t {
        RemovedOnce(q[1..], t);
        NoDupCons(q[0], Removed(q[1..], t));
      }
    }
  }

  /** r is q without t, in the same order. */
  ghost predicate Without(q: seq<Timer>, t: Timer, r: seq<Timer>) {
    && t !in r
    && if t in q then exists i: nat :: i <= |r| && q == r[..i] + [t] + r[i..] else r == q
  }

  lemma RemovedIsWithout(q: seq<Timer>, t: Timer)
    requires NoDup(q)
    ensures Without(q, t, Removed(q, t))
  {
    hide Removed, NoDup;
    RemovedOnce(q, t);
    if t in q {
      var i: nat :| i < |q| && q[i] == t;
      NotBefore(q, i);
      RemovedMiddle(q[..i], t, q[i + 1..]);
      TakenOut(q, i, q[..i] + q[i + 1..]);
    } else {
      RemovedNone(q, t);
    }
  }

  lemma TakenOut(q: seq<Timer>, i: nat, r: seq<Timer>)
    requires i < |q| && r == q[..i] + q[i + 1..]
    ensures i <= |r| && q == r[..i] + [q[i]] + r[i..] && q == q[..i] + ([q[i]] + q[i + 1..])
  {
    assert r[..i] == q[..i] && r[i..] == q[i + 1..];
  }

  lemma NoDupCons(t: Timer, q: seq<Timer>)
    requires NoDup(q) && t !in q
    ensures NoDup([t] + q)
  {
    assert ([t] + q)[1..] == q;
  }

  lemma {:induction false} RemovedMiddle(q: seq<Timer>, t: Timer, r: seq<Timer>)
    requires t !in q
    ensures Removed(q + ([t] + r), t) == q + r
  {
    var tail := [t] + r;
    if q == [] {
      assert q + tail == tail && tail[1..] == r && q + r == r;
    } else {
      RemovedMiddle(q[1..], t, r);
      AfterFirst(q, tail);
      AfterFirst(q, r);
    }
  }

  lemma AfterFirst(q: seq<Timer>, r: seq<Timer>)
    requires q != []
    ensures (q + r)[0] == q[0] && (q + r)[1..] == q[1..] + r && [q[0]] + (q[1..] + r) == q + r
  {
  }

  method RemoveFrom(q: seq<Timer>, t: Timer) returns (r: seq<Timer>)
    requires NoDup(q)
    ensures r == Removed(q, t)
  {
    for i := 0 to |q|
      invariant t !in q[..i]
    {
      if q[i] == t {
        RemovedMiddle(q[..i], t, q[i + 1..]);
        assert q == q[..i] + ([t] + q[i + 1..]);
        return q[..i] + q[i + 1..];
      }
    }
    RemovedNone(q, t);
    return q;
  }

  lemma {:induction false} RemovedNone(q: seq<Timer>, t: Timer)
    requires t !in q
    ensures Removed(q, t) == q
  {
    if q != [] {
      RemovedNone(q[1..], t);
    }
  }

  ghost predicate Deferrable(m: Option<Msg>, at: map<Msg, Place>) {
    m.Some? ==> m.value in at && at[m.value] == Owned
  }

  /** actor_timer_new takes the first free timer. */
  ghost function TimerNewIn(w: World, a: Actor, m: Option<Msg>, delay: nat): World
    requires w.spare != []
  {
    var t := w.spare[0];
    w.(spare := w.spare[1..], timers := w.timers[t := Record(a, m, delay)],
       at := if m.Some? then w.at[m.value := Deferred(t)] else w.at)
  }

  lemma TimerNewSteady(w: World, a: Actor, m: Option<Msg>, delay: nat)
    requires Steady(w) && w.spare != [] && a in w.core.mail && Deferrable(m, w.at)
    ensures Steady(TimerNewIn(w, a, m, delay))
  {
    if m.Some? {
      NoList(w.free, w.core.mail, w.at, m.value, Deferred(w.spare[0]));
    }
    NewTimer(w.timers, w.spare, w.armed, w.core.mail.Keys, w.at, Record(a, m, delay));
  }

  lemma NewTimer(timers: map<Timer, Record>, spare: seq<Timer>, armed: seq<Timer>, actors: set<Actor>,
                 at: map<Msg, Place>, r: Record)
    requires TimersOk(timers, spare, armed, actors, at) && spare != [] && r.actor in actors && Deferrable(r.msg, at)
    ensures var t := spare[0];
            t in timers &&
            TimersOk(timers[t := r], spare[1..], armed, actors,
                     if r.msg.Some? then at[r.msg.value := Deferred(t)] else at)
  {
    var t := spare[0];
    var timers', at' := timers[t := r], if r.msg.Some? then at[r.msg.value := Deferred(t)] else at;
    assert t in spare && spare == [t] + spare[1..];
    forall x | x in timers' && x !in spare[1..] ensures Loaded(timers'[x], x, actors, at') {
      if x != t {
        assert Loaded(timers[x], x, actors, at);
      }
    }
  }

  /** A timer in use is armed. */
  lemma ArmSteady(w: World, t: Timer)
    requires Steady(w) && t in w.timers && t !in w.spare
    ensures Steady(w.(armed := Added(w.armed, t)))
  {
    NoDupAdded(w.armed, t);
  }

  lemma StopSteady(w: World, t: Timer)
    requires Steady(w)
    ensures Steady(w.(armed := Removed(w.armed, t)))
  {
    RemovedOnce(w.armed, t);
  }

  /** actor_timer_delete: the timer is free, and its message is the caller's again. */
  ghost function TimerDeletedIn(w: World, t: Timer): World
    requires t in w.timers
  {
    var m := w.timers[t].msg;
    w.(armed := Removed(w.armed, t), spare := Added(w.spare, t),
       at := if t !in w.spare && m.Some? then w.at[m.value := Owned] else w.at)
  }

  lemma TimerDeleteSteady(w: World, t: Timer)
    requires Steady(w) && t in w.timers
    ensures Steady(TimerDeletedIn(w, t))
  {
    var w', m := TimerDeletedIn(w, t), w.timers[t].msg;
    RemovedOnce(w.armed, t);
    NoDupAdded(w.spare, t);
    DeletedTimers(w, w', t);
    if t !in w.spare {
      assert Loaded(w.timers[t], t, w.core.mail.Keys, w.at);
      if m.Some? {
        NoList(w.free, w.core.mail, w.at, m.value, Owned);
      }
    }
  }

  lemma DeletedTimers(w: World, w': World, t: Timer)
    requires TimersOk(w.timers, w.spare, w.armed, w.core.mail.Keys, w.at) && t in w.timers
    requires w' == TimerDeletedIn(w, t) && NoDup(w'.armed) && NoDup(w'.spare)
    requires forall x :: x in w'.armed <==> x in w.armed && x != t
    requires forall x :: x in w'.spare <==> x in w.spare || x == t
    ensures TimersOk(w'.timers, w'.spare, w'.armed, w'.core.mail.Keys, w'.at)
  {
    if t !in w.spare {
      assert Loaded(w.timers[t], t, w.core.mail.Keys, w.at);
    }
    forall x | x in w'.timers && x !in w'.spare ensures Loaded(w'.timers[x], x, w'.core.mail.Keys, w'.at) {
      assert Loaded(w.timers[x], x, w.core.mail.Keys, w.at);
    }
  }

  /** A timer of the armed list has run out: its message is sent and it is free. */
  ghost function FiredIn(w: World, t: Timer): World
    requires t in w.timers && w.timers[t].actor in w.core.mail
  {
    var a, m := w.timers[t].actor, w.timers[t].msg;
    w.(core := Send(w.core, a, m), at := SentPlaces(w.at, a, m), sent := SentTo(w.sent, a, m),
       armed := Removed(w.armed, t), spare := w.spare + [t])
  }

  lemma FireSteady(w: World, t: Timer)
    requires Steady(w) && t in w.armed
    ensures t in w.timers && w.timers[t].actor in w.core.mail && t !in w.spare
    ensures Accepts(w.timers[t], w.core)
    ensures Steady(FiredIn(w, t))
  {
    var a, m := w.timers[t].actor, w.timers[t].msg;
    assert Loaded(w.timers[t], t, w.core.mail.Keys, w.at);
    SendOk(w.core, w.free, w.at, w.sent, w.handled, a, m);
    SendMail(w.core, a, m);
    var w' := FiredIn(w, t);
    assert w'.core.mail.Keys == w.core.mail.Keys;
    RemovedOnce(w.armed, t);
    FireTimers(w, w', t);
  }

  /** actor_send will accept the message of the timer. */
  ghost predicate Accepts(r: Record, c: Core) {
    r.actor in c.mail && (r.msg.Some? ==> r.msg.value !in c.mail[r.actor])
  }

  lemma FireTimers(w: World, w': World, t: Timer)
    requires TimersOk(w.timers, w.spare, w.armed, w.core.mail.Keys, w.at) && t in w.armed
    requires w'.timers == w.timers && w'.spare == w.spare + [t] && w'.core.mail.Keys == w.core.mail.Keys
    requires NoDup(w'.armed) && forall x :: x in w'.armed <==> x in w.armed && x != t
    requires w'.at == SentPlaces(w.at, w.timers[t].actor, w.timers[t].msg)
    ensures TimersOk(w'.timers, w'.spare, w'.armed, w'.core.mail.Keys, w'.at)
  {
    assert Loaded(w.timers[t], t, w.core.mail.Keys, w.at);
    NoDupAdded(w.spare, t);
    forall x | x in w'.timers && x !in w'.spare ensures Loaded(w'.timers[x], x, w'.core.mail.Keys, w'.at) {
      assert Loaded(w.timers[x], x, w.core.mail.Keys, w.at);
    }
  }

  /** A countdown changes. */
  lemma CountSteady(w: World, t: Timer, n: nat)
    requires Steady(w) && t in w.timers
    ensures Steady(w.(timers := w.timers[t := w.timers[t].(timeout := n)]))
  {
    var timers' := w.timers[t := w.timers[t].(timeout := n)];
    forall x | x in timers' && x !in w.spare ensures Loaded(timers'[x], x, w.core.mail.Keys, w.at) {
      assert Loaded(w.timers[x], x, w.core.mail.Keys, w.at);
    }
  }

  ghost function DueIfNew(s: Times, t: Timer): map<Timer, nat>
    requires t in s.timers
  {
    if t in s.armed then s.due else s.due[t := s.clock + s.timers[t].timeout]
  }

  lemma TimeArmed(s: Times, t: Timer)
    requires OnTime(s) && t in s.timers
    ensures OnTime(s.(armed := Added(s.armed, t), due := DueIfNew(s, t)))
  {
  }

  lemma TimeStopped(s: Times, t: Timer)
    requires OnTime(s) && NoDup(s.armed)
    ensures OnTime(s.(armed := Removed(s.armed, t)))
  {
    RemovedOnce(s.armed, t);
  }

  /** A timer that is not armed is set up. */
  lemma TimeSetUp(s: Times, t: Timer, r: Record)
    requires OnTime(s) && t !in s.armed
    ensures OnTime(s.(timers := s.timers[t := r]))
  {
  }

  lemma ArmedOnce(w: World)
    requires Steady(w)
    ensures NoDup(w.armed) && forall t :: t in w.armed ==> t in w.timers
  {
  }

  lemma SpareIsNotArmed(w: World, t: Timer)
    requires Steady(w) && t in w.spare
    ensures t !in w.armed && t in w.timers
  {
  }

  lemma NewIsInUse(w: World, a: Actor, m: Option<Msg>, delay: nat)
    requires Steady(w) && w.spare != []
    ensures var w' := TimerNewIn(w, a, m, delay);
            w.spare[0] in w'.timers && w.spare[0] !in w'.spare && w.spare[0] !in w'.armed
  {
    assert w.spare[0] in w.spare;
  }

  /** The messages that timers carry to an actor. */
  function Carried(list: seq<Timer>, timers: map<Timer, Record>, a: Actor): seq<Msg> {
    if list == [] then []
    else
      var k := |list| - 1;
      var t := list[k];
      Carried(list[..k], timers, a) +
      if t in timers && timers[t].actor == a && timers[t].msg.Some? then [timers[t].msg.value] else []
  }

  /** The timers of a list that carry a message to an actor. */
  ghost function Carriers(list: seq<Timer>, timers: map<Timer, Record>, a: Actor): set<Timer> {
    set t | t in list && t in timers && timers[t].actor == a && timers[t].msg.Some?
  }

  lemma {:induction false} CarriedCount(list: seq<Timer>, timers: map<Timer, Record>, a: Actor)
    requires NoDup(list)
    ensures |Carried(list, timers, a)| == |Carriers(list, timers, a)|
  {
    hide NoDup;
    if list == [] {
      assert Carriers(list, timers, a) == {};
    } else {
      var k := |list| - 1;
      NotBefore(list, k);
      NoDupPrefix(list, k);
      CarriedCount(list[..k], timers, a);
      OneMoreCarrier(list[..k], list[k], timers, a);
      assert list == list[..k] + [list[k]];
    }
  }

  lemma OneMoreCarrier(list: seq<Timer>, t: Timer, timers: map<Timer, Record>, a: Actor)
    requires t !in list
    ensures |Carriers(list + [t], timers, a)| ==
            |Carriers(list, timers, a)| + if t in timers && timers[t].actor == a && timers[t].msg.Some? then 1 else 0
  {
    var all, rest := Carriers(list + [t], timers, a), Carriers(list, timers, a);
    if t in timers && timers[t].actor == a && timers[t].msg.Some? {
      assert all == rest + {t};
    } else {
      assert all == rest;
    }
  }

  lemma {:induction false} NoDupPrefix(list: seq<Timer>, k: nat)
    requires NoDup(list) && k <= |list|
    ensures NoDup(list[..k])
  {
    if k > 0 {
      NoDupPrefix(list[1..], k - 1);
      assert list[..k] == [list[0]] + list[1..][..k - 1];
      assert list[..k][1..] == list[1..][..k - 1];
    }
  }

  // ---------------------------------------------------------------- a step of the timers

  predicate RunsOut(timers: map<Timer, Record>, t: Timer, elapsed: nat) {
    t in timers && timers[t].timeout <= elapsed
  }

  /** The timers of a list that run out when `elapsed` passes, and the others. */
  function Fired(list: seq<Timer>, timers: map<Timer, Record>, elapsed: nat): seq<Timer> {
    if list == [] then []
    else
      Fired(list[..|list| - 1], timers, elapsed) +
      if RunsOut(timers, list[|list| - 1], elapsed) then [list[|list| - 1]] else []
  }

  function Kept(list: seq<Timer>, timers: map<Timer, Record>, elapsed: nat): seq<Timer> {
    if list == [] then []
    else
      Kept(list[..|list| - 1], timers, elapsed) +
      if RunsOut(timers, list[|list| - 1], elapsed) then [] else [list[|list| - 1]]
  }

  /** What has been sent once the timers of a list have fired, one after the other. */
  ghost function SentBy(sent: map<Actor, seq<Msg>>, list: seq<Timer>,
                        timers: map<Timer, Record>): map<Actor, seq<Msg>> {
    if list == [] then sent
    else
      var t, before := list[|list| - 1], SentBy(sent, list[..|list| - 1], timers);
      if t in timers then SentTo(before, timers[t].actor, timers[t].msg) else before
  }

  /** A timer fires when its time has come, counted from when it was started: not before, and not later
      than the first step that reaches it. */
  lemma {:induction false} FiredAreDue(s: Times, list: seq<Timer>, elapsed: nat)
    requires TimeOk(s.timers, list, s.due, s.clock)
    ensures forall t :: t in Fired(list, s.timers, elapsed) <==> t in list && s.due[t] <= s.clock + elapsed
    ensures forall t :: t in Kept(list, s.timers, elapsed) <==> t in list && s.due[t] > s.clock + elapsed
  {
    if list != [] {
      var k := |list| - 1;
      assert list == list[..k] + [list[k]];
      FiredAreDue(s, list[..k], elapsed);
    }
  }

  /** Both lists are in the order of the list. */
  lemma FiredInOrder(s: Times, list: seq<Timer>, k: nat, elapsed: nat)
    requires TimeOk(s.timers, list, s.due, s.clock) && k < |list|
    ensures var before, after, now := list[..k], list[..k + 1], s.due[list[k]] <= s.clock + elapsed;
            && Fired(after, s.timers, elapsed) == Fired(before, s.timers, elapsed) + (if now then [list[k]] else [])
            && Kept(after, s.timers, elapsed) == Kept(before, s.timers, elapsed) + if now then [] else [list[k]]
  {
    assert list[..k + 1][..k] == list[..k];
  }

  lemma {:induction false} SentByConcat(sent: map<Actor, seq<Msg>>, list: seq<Timer>, t: Timer,
                                        timers: map<Timer, Record>)
    requires t in timers
    ensures SentBy(sent, list + [t], timers) == SentTo(SentBy(sent, list, timers), timers[t].actor, timers[t].msg)
  {
    assert (list + [t])[..|list|] == list;
  }

  /** The messages for one actor arrive in the order of the list, behind those sent before. */
  lemma {:induction false} SentInOrder(sent: map<Actor, seq<Msg>>, list: seq<Timer>, timers: map<Timer, Record>,
                                       a: Actor)
    requires a in sent
    ensures a in SentBy(sent, list, timers) && SentBy(sent, list, timers)[a] == sent[a] + Carried(list, timers, a)
  {
    if list != [] {
      SentInOrder(sent, list[..|list| - 1], timers, a);
    }
  }

  /** update_timeout */
  function Left(timeout: nat, elapsed: nat): nat {
    if elapsed >= timeout then 0 else timeout - elapsed
  }

  function CountedDown(r: Record, elapsed: nat): Record {
    r.(timeout := Left(r.timeout, elapsed))
  }

  /** The timers of a list have been counted down. */
  ghost function Counted(timers: map<Timer, Record>, list: seq<Timer>, elapsed: nat): map<Timer, Record> {
    map t | t in timers :: if t in list then CountedDown(timers[t], elapsed) else timers[t]
  }

  /**
   * Midway in the loop of actor_timer_step: the first k timers of `list` are done. `w0` is the
   * system when the loop began.
   */
  ghost predicate Stepping(w: World, w0: World, list: seq<Timer>, k: nat, elapsed: nat)
    requires k <= |list|
  {
    && w.armed == Kept(list[..k], w0.timers, elapsed) + list[k..]
    && w.spare == w0.spare + Fired(list[..k], w0.timers, elapsed)
    && w.sent == SentBy(w0.sent, Fired(list[..k], w0.timers, elapsed), w0.timers)
    && w.timers == Counted(w0.timers, list[..k], elapsed)
    && Scheduled(w.core, w0, Fired(list[..k], w0.timers, elapsed))
  }

  /** The actors of fired timers are in the run queue, with a token for each timer. */
  ghost predicate Scheduled(c: Core, w0: World, fired: seq<Timer>) {
    && c.tokens == w0.core.tokens + |fired|
    && forall t :: t in fired && t in w0.timers ==> w0.timers[t].actor in c.runq
  }

  lemma {:induction false} KeptFrom(list: seq<Timer>, timers: map<Timer, Record>, elapsed: nat)
    ensures forall t :: t in Kept(list, timers, elapsed) ==> t in list
  {
    if list != [] {
      KeptFrom(list[..|list| - 1], timers, elapsed);
    }
  }

  lemma {:induction false} NotBefore(list: seq<Timer>, k: nat)
    requires NoDup(list) && k < |list|
    ensures list[k] !in list[..k]
  {
    if k > 0 {
      NotBefore(list[1..], k - 1);
      assert list[..k] == [list[0]] + list[1..][..k - 1];
      assert list[k] == list[1..][k - 1];
    }
  }

  lemma CountedOne(timers: map<Timer, Record>, list: seq<Timer>, k: nat, elapsed: nat)
    requires k < |list| && list[k] in timers && list[k] !in list[..k]
    ensures var c, t := Counted(timers, list[..k], elapsed), list[k];
            && t in c && c[t] == timers[t]
            && c[t := CountedDown(timers[t], elapsed)] == Counted(timers, list[..k + 1], elapsed)
  {
    var c, d, t := Counted(timers, list[..k], elapsed), Counted(timers, list[..k + 1], elapsed), list[k];
    assert list[..k + 1] == list[..k] + [t];
    assert c[t := CountedDown(timers[t], elapsed)].Keys == d.Keys;
    forall x | x in d ensures c[t := CountedDown(timers[t], elapsed)][x] == d[x] {
    }
  }

  /** What one turn of the loop does to the lists. */
  lemma ListsAfter(list: seq<Timer>, k: nat, timers: map<Timer, Record>, elapsed: nat)
    requires k < |list| && NoDup(list)
    ensures var t, out := list[k], RunsOut(timers, list[k], elapsed);
            && t !in list[..k]
            && Kept(list[..k + 1], timers, elapsed) == Kept(list[..k], timers, elapsed) + (if out then [] else [t])
            && Fired(list[..k + 1], timers, elapsed) == Fired(list[..k], timers, elapsed) + (if out then [t] else [])
            && (!out ==>
                  Kept(list[..k + 1], timers, elapsed) + list[k + 1..] == Kept(list[..k], timers, elapsed) + list[k..])
            && Removed(Kept(list[..k], timers, elapsed) + list[k..], t) ==
               Kept(list[..k], timers, elapsed) + list[k + 1..]
  {
    var t, kept := list[k], Kept(list[..k], timers, elapsed);
    NotBefore(list, k);
    KeptFrom(list[..k], timers, elapsed);
    assert list[..k + 1][..k] == list[..k];
    assert list[k..] == [t] + list[k + 1..];
    RemovedMiddle(kept, t, list[k + 1..]);
    assert (kept + [t]) + list[k + 1..] == kept + ([t] + list[k + 1..]);
  }

  /** The timer is counted down, and goes on. */
  lemma StepKeeps(w: World, w0: World, list: seq<Timer>, k: nat, elapsed: nat)
    requires k < |list| && NoDup(list) && list[k] in w0.timers && Stepping(w, w0, list, k, elapsed)
    requires !RunsOut(w0.timers, list[k], elapsed)
    ensures list[k] in w.timers && w.timers[list[k]] == w0.timers[list[k]]
    ensures Stepping(w.(timers := w.timers[list[k] := CountedDown(w.timers[list[k]], elapsed)]), w0, list, k + 1,
                     elapsed)
  {
    ListsAfter(list, k, w0.timers, elapsed);
    CountedOne(w0.timers, list, k, elapsed);
    assert Fired(list[..k], w0.timers, elapsed) + [] == Fired(list[..k], w0.timers, elapsed);
  }

  /** The timer is counted down to nothing, and fires. */
  lemma StepFires(w: World, w0: World, list: seq<Timer>, k: nat, elapsed: nat)
    requires k < |list| && NoDup(list) && list[k] in w0.timers && Stepping(w, w0, list, k, elapsed)
    requires RunsOut(w0.timers, list[k], elapsed) && Accepts(w0.timers[list[k]], w.core)
    ensures list[k] in w.timers && w.timers[list[k]] == w0.timers[list[k]]
    ensures Stepping(FiredIn(w.(timers := w.timers[list[k] := CountedDown(w.timers[list[k]], elapsed)]), list[k]), w0,
                     list, k + 1, elapsed)
  {
    var t := list[k];
    NotBefore(list, k);
    CountedOne(w0.timers, list, k, elapsed);
    var w1 := w.(timers := w.timers[t := CountedDown(w.timers[t], elapsed)]);
    FiredLists(FiredIn(w1, t), w, w0, list, k, elapsed);
  }

  lemma FiredLists(w': World, w: World, w0: World, list: seq<Timer>, k: nat, elapsed: nat)
    requires k < |list| && NoDup(list) && list[k] in w0.timers && Stepping(w, w0, list, k, elapsed)
    requires RunsOut(w0.timers, list[k], elapsed)
    requires w'.armed == Removed(w.armed, list[k]) && w'.spare == w.spare + [list[k]]
    requires w'.sent == SentTo(w.sent, w0.timers[list[k]].actor, w0.timers[list[k]].msg)
    requires w'.timers == Counted(w0.timers, list[..k + 1], elapsed)
    requires w'.core.tokens == w.core.tokens + 1 && w'.core.runq == Added(w.core.runq, w0.timers[list[k]].actor)
    ensures Stepping(w', w0, list, k + 1, elapsed)
  {
    hide Kept, Fired, SentBy, Counted, Removed, NoDup;
    var t, kept, fired := list[k], Kept(list[..k], w0.timers, elapsed), Fired(list[..k], w0.timers, elapsed);
    ListsAfter(list, k, w0.timers, elapsed);
    SentByConcat(w0.sent, fired, t, w0.timers);
    assert kept + [] == kept;
    assert (w0.spare + fired) + [t] == w0.spare + (fired + [t]);
  }

  /** After the loop the countdowns agree with the new time. */
  lemma StepTimes(s: Times, elapsed: nat)
    requires OnTime(s)
    ensures OnTime(Times(Counted(s.timers, s.armed, elapsed), Kept(s.armed, s.timers, elapsed), s.due,
                         s.clock + elapsed))
  {
    FiredAreDue(s, s.armed, elapsed);
  }

  lemma StepBegins(w: World, elapsed: nat)
    ensures Stepping(w, w, w.armed, 0, elapsed)
  {
    var none: seq<Timer> := [];
    assert w.armed[..0] == none && w.armed[0..] == w.armed;
    assert none + w.armed == w.armed && w.spare + none == w.spare;
    assert w.timers == Counted(w.timers, none, elapsed);
  }

  lemma StepEnds(w: World, w0: World, list: seq<Timer>, elapsed: nat)
    requires Stepping(w, w0, list, |list|, elapsed)
    ensures w.armed == Kept(list, w0.timers, elapsed) && w.timers == Counted(w0.timers, list, elapsed)
    ensures w.spare == w0.spare + Fired(list, w0.timers, elapsed)
    ensures w.sent == SentBy(w0.sent, Fired(list, w0.timers, elapsed), w0.timers)
    ensures Scheduled(w.core, w0, Fired(list, w0.timers, elapsed))
  {
    assert list[..|list|] == list;
  }

  /** The timer whose turn it is has not been touched by the loop. */
  lemma StillAsBefore(w: World, w0: World, list: seq<Timer>, k: nat, elapsed: nat)
    requires k < |list| && NoDup(list) && list[k] in w0.timers && Stepping(w, w0, list, k, elapsed)
    ensures list[k] in w.timers && w.timers[list[k]] == w0.timers[list[k]] && list[k] in w.armed
  {
    NotBefore(list, k);
    CountedOne(w0.timers, list, k, elapsed);
    assert list[k..][0] == list[k];
  }

  /** actor_timer_count_messages */
  method CountCarried(armed: seq<Timer>, timers: map<Timer, Record>, a: Actor) returns (cnt: nat)
    requires forall t :: t in armed ==> t in timers
    ensures cnt == |Carried(armed, timers, a)|
  {
    cnt := 0;
    for k := 0 to |armed|
      invariant cnt == |Carried(armed[..k], timers, a)|
    {
      assert armed[..k + 1][..k] == armed[..k];
      if timers[armed[k]].actor == a && timers[armed[k]].msg.Some? {
        cnt := cnt + 1;
      }
    }
    assert armed[..|armed|] == armed;
  }

  // ------------------------------------------------------------------------ the system

  class System {
    const msgSize: nat
    const payloadSize: nat
    var core: Core
    var free: seq<Msg>
    var pool: nat
    var timers: map<Timer, Record>
    var spare: seq<Timer>
    var armed: seq<Timer>
    ghost var at: map<Msg, Place>
    ghost var sent: map<Actor, seq<Msg>>
    ghost var handled: map<Actor, seq<Msg>>
    ghost var due: map<Timer, nat>
    ghost var clock: nat

    ghost function View(): World
      reads this
    {
      World(core, free, pool, timers, spare, armed, at, sent, handled)
    }

    ghost predicate Valid()
      reads this
    {
      Steady(View()) && OnTime(Schedule())
    }

    ghost function Schedule(): Times
      reads this
    {
      Times(timers, armed, due, clock)
    }

    /** actor_init and actor_timer_init: n messages, k timers, no actors yet. */
    constructor (msgSize: nat, payloadSize: nat, n: nat, k: nat)
      ensures Valid() && core == Core([], 0, map[]) && pool == n && |free| == n && armed == [] && |spare| == k
      ensures Out(at) == {} && clock == 0
    {
      this.msgSize, this.payloadSize := msgSize, payloadSize;
      core := Core([], 0, map[]);
      pool := n;
      var list := AddUpTo(n);
      free := list;
      at := map m | m in list :: Pool;
      sent, handled := map[], map[];
      var timerList := AddUpTo(k);
      spare, armed := timerList, [];
      timers := map t | t in timerList :: Record(0, None, 0);
      due, clock := map[], 0;
      new;
      MapSize(list, at);
    }

    /** actor_set, for an actor that is new. */
    method SetActor(a: Actor)
      requires Valid() && a !in core.mail
      modifies this`core, this`sent, this`handled
      ensures Valid()
      ensures core == old(core).(mail := old(core.mail)[a := []])
      ensures sent == old(sent)[a := []] && handled == old(handled)[a := []]
    {
      hide Steady, OnTime;
      NewActorSteady(View(), a);
      core := core.(mail := core.mail[a := []]);
      sent := sent[a := []];
      handled := handled[a := []];
    }

    /** actor_alloc */
    method Alloc(payload: nat) returns (r: Option<Msg>)
      requires Valid()
      modifies this`free, this`at
      ensures Valid()
      ensures r == if payload == 0 || payload > payloadSize || old(free) == [] then None else Some(old(free)[0])
      ensures r.Some? ==> old(at)[r.value] == Pool && at == old(at)[r.value := Owned] && old(free) == [r.value] + free
      ensures r.None? ==> at == old(at) && free == old(free)
    {
      hide Steady, OnTime;
      if payload == 0 || payload > payloadSize || free == [] {
        return None;
      }
      AllocSteady(View());
      FreeIsPooled(View());
      var m := free[0];
      free := free[1..];
      at := at[m := Owned];
      return Some(m);
    }

    /** actor_free: of a message its owner gives back; a second time does nothing. */
    method Free(m: Option<Msg>)
      requires Valid() && Freeable(m, at)
      modifies this`free, this`at
      ensures Valid()
      ensures m.None? || m.value in old(free) ==> at == old(at) && free == old(free)
      ensures m.Some? && m.value !in old(free) ==> at == old(at)[m.value := Pool] && free == old(free) + [m.value]
    {
      hide Steady, OnTime;
      ghost var w := FreedIn(View(), m);
      FreeSteady(View(), m);
      FreeAgain(View(), m);
      PutBack(m);
      assert View() == w;
    }

    method PutBack(m: Option<Msg>)
      modifies this`free, this`at
      ensures View() == FreedIn(old(View()), m)
    {
      if m.Some? {
        var _, list := AddIfNotExist(free, m.value);
        free := list;
        at := at[m.value := Pool];
      }
    }

    /** actor_mem_len: the bytes of the messages that are out. */
    method MemLen() returns (n: nat)
      requires Valid()
      ensures n == |Out(at)| * msgSize
    {
      PoolConserved(free, at);
      assert (pool - |free|) * msgSize == pool * msgSize - |free| * msgSize;
      n := pool * msgSize - |free| * msgSize;
    }

    /** actor_send */
    method Send(a: Actor, m: Option<Msg>) returns (rc: Rc)
      requires Valid() && a in core.mail && Sendable(a, m, at)
      modifies this`core, this`at, this`sent
      ensures Valid() && rc == if m.Some? && m.value in old(core).mail[a] then EALREADY else OK
      ensures rc == EALREADY ==> View() == old(View())
      ensures rc == OK ==>
                && core.runq == (if a in old(core).runq then old(core).runq else old(core).runq + [a])
                && core.tokens == old(core).tokens + 1
      ensures rc == OK && m.None? ==> core.mail == old(core).mail && sent == old(sent) && at == old(at)
      ensures rc == OK && m.Some? ==>
                && core.mail == old(core).mail[a := old(core).mail[a] + [m.value]]
                && a in old(sent) && sent == old(sent)[a := old(sent)[a] + [m.value]]
                && m.value in old(at) && at == old(at)[m.value := Mailbox(a)]
    {
      hide Steady, OnTime;
      ghost var w := SentIn(View(), a, m);
      SendSteady(View(), a, m);
      HasHistory(View(), a);
      rc := PushAndSchedule(a, m);
      assert View() == w;
    }

    /** The work of actor_send, whatever the state. */
    method PushAndSchedule(a: Actor, m: Option<Msg>) returns (rc: Rc)
      requires a in core.mail
      modifies this`core, this`at, this`sent
      ensures View() == SentIn(old(View()), a, m)
      ensures rc == if m.Some? && m.value in old(core).mail[a] then EALREADY else OK
      ensures rc == EALREADY ==> View() == old(View())
      ensures rc == OK ==>
                && core.runq == (if a in old(core).runq then old(core).runq else old(core).runq + [a])
                && core.tokens == old(core).tokens + 1
                && core.mail == (if m.None? then old(core).mail
                                 else old(core).mail[a := old(core).mail[a] + [m.value]])
                && at == (if m.None? then old(at) else old(at)[m.value := Mailbox(a)])
                && (m.None? ==> sent == old(sent))
                && (m.Some? && a in old(sent) ==> sent == old(sent)[a := old(sent)[a] + [m.value]])
    {
      var accepted, c := SendTo(core, a, m);
      if !accepted {
        return EALREADY;
      }
      core := c;
      at := SentPlaces(at, a, m);
      sent := SentTo(sent, a, m);
      return OK;
    }

    /** One turn of the dispatcher, whose semaphore has let it through. */
    method DispatchActor() returns (who: Option<Actor>, m: Option<Msg>)
      requires Valid() && core.tokens > 0
      modifies this`core, this`at, this`handled
      ensures Valid() && core.tokens == old(core).tokens - 1
      ensures old(core).runq == [] ==> who == None && m == None && core.runq == []
      ensures m == None ==> core.mail == old(core).mail && handled == old(handled) && at == old(at)
      ensures old(core).runq != [] ==>
                var a, rest := old(core).runq[0], old(core).runq[1..];
                && who == Some(a) && a in old(core).mail && a in old(handled)
                && if old(core).mail[a] == [] then m == None && core.runq == rest
                   else
                     && m == Some(old(core).mail[a][0]) && m.value in old(at)
                     && core.mail == old(core).mail[a := old(core).mail[a][1..]]
                     && core.runq == (if |old(core).mail[a]| > 1 then rest + [a] else rest)
                     && handled == old(handled)[a := old(handled)[a] + [m.value]]
                     && at == old(at)[m.value := Owned]
    {
      hide Steady, OnTime;
      DispatchSteady(View());
      if core.runq != [] {
        NextIsKnown(View());
      }
      var c;
      who, m, c := DispatchOne(core);
      at := TakenPlaces(core, at);
      handled := TakenBy(core, handled);
      core := c;
    }

    /** Dispatching while there are tokens hands every message that was sent to its actor, in order. */
    method Drain()
      requires Valid()
      modifies this`core, this`at, this`handled
      ensures Valid() && handled == sent && forall a :: a in core.mail ==> core.mail[a] == []
    {
      hide Steady, OnTime;
      while core.tokens > 0
        invariant Valid()
        decreases core.tokens
      {
        var _, _ := DispatchActor();
      }
      DrainedHistory(View());
    }

    /** actor_timer_new */
    method TimerNew(a: Actor, m: Option<Msg>, delay: nat) returns (r: Option<Timer>)
      requires Valid() && a in core.mail && Deferrable(m, at)
      modifies this`timers, this`spare, this`at
      ensures Valid()
      ensures r == if old(spare) == [] then None else Some(old(spare)[0])
      ensures View() == if r.Some? then TimerNewIn(old(View()), a, m, delay) else old(View())
      ensures r.Some? ==>
                && old(spare) == [r.value] + spare && timers == old(timers)[r.value := Record(a, m, delay)]
                && at == if m.Some? then old(at)[m.value := Deferred(r.value)] else old(at)
    {
      hide Steady, OnTime;
      if spare == [] {
        return None;
      }
      TimerNewSteady(View(), a, m, delay);
      SpareIsNotArmed(View(), spare[0]);
      TimeSetUp(Schedule(), spare[0], Record(a, m, delay));
      var t := TakeTimer(a, m, delay);
      return Some(t);
    }

    method TakeTimer(a: Actor, m: Option<Msg>, delay: nat) returns (t: Timer)
      requires spare != []
      modifies this`timers, this`spare, this`at
      ensures View() == TimerNewIn(old(View()), a, m, delay) && t == old(spare)[0]
      ensures old(spare) == [t] + spare && timers == old(timers)[t := Record(a, m, delay)]
      ensures at == if m.Some? then old(at)[m.value := Deferred(t)] else old(at)
      ensures Schedule() == old(Schedule()).(timers := old(timers)[t := Record(a, m, delay)])
    {
      t := spare[0];
      spare := spare[1..];
      timers := timers[t := Record(a, m, delay)];
      at := if m.Some? then at[m.value := Deferred(t)] else at;
    }

    /** actor_timer_start, of a timer that is in use. */
    method TimerStart(t: Timer)
      requires Valid() && t in timers && t !in spare
      modifies this`armed, this`due
      ensures Valid() && View() == old(View()).(armed := Added(old(armed), t))
      ensures armed == if t in old(armed) then old(armed) else old(armed) + [t]
      ensures due == if t in old(armed) then old(due) else old(due)[t := clock + timers[t].timeout]
    {
      hide Steady, OnTime;
      ArmSteady(View(), t);
      TimeArmed(Schedule(), t);
      Arm(t);
    }

    method Arm(t: Timer)
      requires t in timers
      modifies this`armed, this`due
      ensures View() == old(View()).(armed := Added(old(armed), t))
      ensures Schedule() == old(Schedule()).(armed := Added(old(armed), t), due := DueIfNew(old(Schedule()), t))
    {
      due := DueIfNew(Schedule(), t);
      var _, list := AddIfNotExist(armed, t);
      armed := list;
    }

    /** actor_timer_stop */
    method TimerStop(t: Timer)
      requires Valid()
      modifies this`armed
      ensures Valid() && View() == old(View()).(armed := Removed(old(armed), t)) && Without(old(armed), t, armed)
    {
      hide Steady, OnTime;
      ArmedOnce(View());
      RemovedIsWithout(armed, t);
      StopSteady(View(), t);
      TimeStopped(Schedule(), t);
      armed := RemoveFrom(armed, t);
    }

    /** actor_timer_delete; of a timer that is free already it does nothing. */
    method TimerDelete(t: Timer)
      requires Valid() && t in timers
      modifies this`armed, this`spare, this`at
      ensures Valid() && Without(old(armed), t, armed)
      ensures spare == if t in old(spare) then old(spare) else old(spare) + [t]
      ensures t in old(spare) || timers[t].msg.None? ==> at == old(at)
      ensures t !in old(spare) && timers[t].msg.Some? ==> at == old(at)[timers[t].msg.value := Owned]
    {
      hide Steady, OnTime;
      ArmedOnce(View());
      RemovedIsWithout(armed, t);
      TimerDeleteSteady(View(), t);
      TimeStopped(Schedule(), t);
      StopAndFree(t);
    }

    method StopAndFree(t: Timer)
      requires NoDup(armed) && t in timers
      modifies this`armed, this`spare, this`at
      ensures View() == TimerDeletedIn(old(View()), t)
      ensures Schedule() == old(Schedule()).(armed := Removed(old(armed), t))
    {
      armed := RemoveFrom(armed, t);
      at := if t !in spare && timers[t].msg.Some? then at[timers[t].msg.value := Owned] else at;
      var _, list := AddIfNotExist(spare, t);
      spare := list;
    }

    /** actor_send_defer */
    method SendDefer(a: Actor, m: Option<Msg>, delay: nat) returns (rc: Rc)
      requires Valid() && a in core.mail && Deferrable(m, at)
      modifies this`timers, this`spare, this`armed, this`at, this`due
      ensures Valid()
      ensures rc == if old(spare) == [] then ENOSPC else OK
      ensures rc == ENOSPC ==> View() == old(View()) && due == old(due)
      ensures rc == OK ==>
                var t := old(spare)[0];
                && old(spare) == [t] + spare && armed == old(armed) + [t]
                && timers == old(timers)[t := Record(a, m, delay)] && due == old(due)[t := clock + delay]
                && at == if m.Some? then old(at)[m.value := Deferred(t)] else old(at)
    {
      hide Steady, OnTime;
      ghost var w := View();
      var r := TimerNew(a, m, delay);
      if r.None? {
        return ENOSPC;
      }
      TimerNewSteady(w, a, m, delay);
      SpareIsNotArmed(w, r.value);
      NewIsInUse(w, a, m, delay);
      TimerStart(r.value);
      return OK;
    }

    /** actor_count_messages: in the mailbox, or on their way to it. */
    method CountMessages(a: Actor) returns (n: nat)
      requires Valid() && a in core.mail
      ensures n == |core.mail[a]| + |Carriers(armed, timers, a)|
    {
      hide Steady, OnTime;
      ArmedOnce(View());
      CarriedCount(armed, timers, a);
      var cnt := CountCarried(armed, timers, a);
      n := |core.mail[a]| + cnt;
    }

    /**
     * actor_timer_step: the armed timers that run out send their messages in the order of the list and
     * are free; the others are counted down and stay.
     */
    method TimerStep(elapsed: nat)
      requires Valid()
      modifies this`core, this`timers, this`spare, this`armed, this`at, this`sent, this`clock
      ensures Valid() && clock == old(clock) + elapsed
      ensures armed == Kept(old(armed), old(timers), elapsed)
      ensures spare == old(spare) + Fired(old(armed), old(timers), elapsed)
      ensures sent == SentBy(old(sent), Fired(old(armed), old(timers), elapsed), old(timers))
      ensures Scheduled(core, old(View()), Fired(old(armed), old(timers), elapsed))
    {
      hide Steady, OnTime, Stepping, Kept, Fired, SentBy, Counted, NoDup, Scheduled;
      var list := armed;
      ghost var w0, s0 := View(), Schedule();
      ArmedOnce(w0);
      StepBegins(w0, elapsed);
      for k := 0 to |list|
        invariant Steady(View()) && Stepping(View(), w0, list, k, elapsed) && due == s0.due && clock == s0.clock
      {
        StepOne(list, k, elapsed, w0);
      }
      StepEnds(View(), w0, list, elapsed);
      StepTimes(s0, elapsed);
      clock := clock + elapsed;
    }

    /** One armed timer: count it down, and when nothing is left send its message and free it. */
    method StepOne(list: seq<Timer>, k: nat, elapsed: nat, ghost w0: World)
      requires k < |list| && NoDup(list) && list[k] in w0.timers
      requires Steady(View()) && Stepping(View(), w0, list, k, elapsed)
      modifies this`core, this`timers, this`spare, this`armed, this`at, this`sent
      ensures Steady(View()) && Stepping(View(), w0, list, k + 1, elapsed)
    {
      hide Steady, OnTime;
      var t := list[k];
      ghost var w := View();
      StillAsBefore(w, w0, list, k, elapsed);
      CountSteady(w, t, Left(timers[t].timeout, elapsed));
      ghost var out := RunsOut(w0.timers, t, elapsed);
      timers := timers[t := CountedDown(timers[t], elapsed)];
      ghost var w1 := View();
      if timers[t].timeout != 0 {
        StepKeeps(w, w0, list, k, elapsed);
        return;
      }
      FireSteady(w1, t);
      ArmedOnce(w1);
      StepFires(w, w0, list, k, elapsed);
      Fire(t);
    }

    method Fire(t: Timer)
      requires t in timers && Accepts(timers[t], core) && NoDup(armed) && t !in spare
      modifies this`core, this`spare, this`armed, this`at, this`sent
      ensures View() == FiredIn(old(View()), t)
    {
      var a, m := timers[t].actor, timers[t].msg;
      var _, c := SendTo(core, a, m);
      core := c;
      at := SentPlaces(at, a, m);
      sent := SentTo(sent, a, m);
      armed := RemoveFrom(armed, t);
      var _, list := AddIfNotExist(spare, t);
      spare := list;
    }
  }
}
