/** Who takes over when the SYNC messages stop, and when: `Ball` in real time, with names and timers. */
module Takeover {
  import opened Options
  import opened Text
  import opened Ball
  import Contract
  import ContractCodec

  // ---------------------------------------------------------------- one timer

  /** A timer dispatched at `t` is exact -- it acquires the token exactly when the recorded SYNC time
      is still the one it was dispatched for, whatever newer time may replace it -- exactly when it
      wakes no more than 20 s late. */
  lemma TimerIsExact(t: nat, delay: nat, late: nat, dispatched: Option<nat>, n: Node)
    requires Elapsed(t, dispatched) > PATIENCE && !Holds(n)
    ensures (forall later: Option<nat> :: later == dispatched || (later.Some? && later.value >= t) ==>
               (Holds(OnTimer(n.(lastSync := later), delay, t + delay + late)) <==> later == dispatched))
            <==> late <= PATIENCE
  {
    if late > PATIENCE {
      var later := Some(t);
      assert later != dispatched;
      assert Holds(OnTimer(n.(lastSync := later), delay, t + delay + late));
    }
  }

  // ---------------------------------------------------------------- being alone

  /** A waiting node that was never ranked takes the token at its next poll exactly when the contract
      lists one address printed without a trailing comma, or lists none at all: the stray NUL read
      behind an empty list counts as a subscriber. */
  lemma AloneExactly(n: Node, addrs: seq<ContractCodec.Address>, text: Str, trailing: bool)
    requires !Holds(n) && PeersOf(n) == []
    requires ContractCodec.DistinctPeers(addrs) && ContractCodec.AllProper(addrs)
    requires ContractCodec.ListItems(ContractCodec.Wholes(addrs)) && ContractCodec.Texts(ContractCodec.Wholes(addrs))
    requires ContractCodec.Shows(text, Contract.EncodeList(ContractCodec.Wholes(addrs)), trailing)
    ensures Holds(OnPoll(n, |ContractCodec.ParseMultiaddresses(ContractCodec.Parsed(text))|))
            <==> addrs == [] || (|addrs| == 1 && !trailing)
  {
    ContractCodec.AddressesComeBack(addrs, text, trailing);
  }

  // ---------------------------------------------------------------- ranks

  /** Position `r` of the list is the first that carries the name. */
  ghost predicate FirstAt(peers: seq<Peer>, me: Str, r: nat) {
    r < |peers| && peers[r].peerId == me && forall k :: 0 <= k < r ==> peers[k].peerId != me
  }

  ghost predicate Named(peers: seq<Peer>, me: Str) { exists k: nat :: k < |peers| && peers[k].peerId == me }

  function Delay(r: nat): nat { (r + 1) * 10 * SECOND }

  lemma {:induction false} TimersAreRanks(peers: seq<Peer>, me: Str, k: nat, d: nat)
    requires k <= |peers|
    ensures d in TimersFrom(peers, me, k) <==> exists r: nat :: r < k && peers[r].peerId == me && d == Delay(r)
  {
    if k == 0 {
    } else {
      TimersAreRanks(peers, me, k - 1, d);
      if peers[k - 1].peerId == me && d == Delay(k - 1) {
        assert d in TimersFrom(peers, me, k);
      }
    }
  }

  // ---------------------------------------------------------------- a network in real time

  /** A take-over timer that wakes at `due`, `delay` after it was dispatched. */
  datatype Alarm = Alarm(due: nat, delay: nat)

  /** Whether a node is up, the instant of its next poll, and its pending timers. */
  datatype Plan = Plan(up: bool, nextPoll: nat, alarms: multiset<Alarm>)

  /** What one node is about. */
  datatype Place = Place(node: Node, plan: Plan)

  /** The network of `Ball` with names, a clock, and the timers that polls dispatched. */
  datatype World = World(clock: nat, names: seq<Str>, net: System, plans: seq<Plan>)

  /** `Rest` lets time pass; a node that dies forgets everything and does not come back. */
  datatype Moment = Act(e: Event, now: nat) | Die(i: nat, now: nat) | Rest(now: nat)

  const BLANK: Node := Node(None, None, None, None)

  ghost predicate Shaped(w: World) {
    |w.names| == |w.net.nodes| == |w.net.queues| == |w.plans|
  }

  function PlaceAt(w: World, i: nat): Place
    requires i < |w.net.nodes| && i < |w.plans|
  {
    Place(w.net.nodes[i], w.plans[i])
  }

  ghost predicate OnTime(p: Plan, now: nat) {
    now <= p.nextPoll && forall a :: a in p.alarms ==> now <= a.due
  }

  /** Time does not pass over a poll or a timer of a node that is up. */
  ghost predicate Punctual(w: World, now: nat) {
    w.clock <= now && forall i :: 0 <= i < |w.plans| && w.plans[i].up ==> OnTime(w.plans[i], now)
  }

  /** A node that is up polls when it is time; a timer wakes when it is due; a SYNC goes to whom its
      list names; nothing reaches a node that is down. */
  ghost predicate Allowed(w: World, e: Event, now: nat)
    requires Shaped(w) && Enabled(w.net, e)
  {
    match e
    case Poll(i, _, targets, peers) =>
      && w.plans[i].up && now == w.plans[i].nextPoll
      && forall k :: 0 <= k < |targets| ==> w.names[targets[k]] == peers[k].peerId
    case Send(i, t) => w.plans[i].up && t == now
    case Deliver(p, t) => w.plans[p.dst].up && t == now
    case Lose(p) => true
    case Timer(i, delay, t) => w.plans[i].up && t == now && Alarm(now, delay) in w.plans[i].alarms
    case Seize(i, t) => w.plans[i].up && t == now
  }

  ghost predicate Possible(w: World, m: Moment) {
    && Shaped(w) && Punctual(w, m.now)
    && match m
       case Act(e, now) => Enabled(w.net, e) && Allowed(w, e, now)
       case Die(i, _) => i < |w.plans|
       case Rest(_) => true
  }

  /** The timers that one poll dispatches, as alarms. */
  function AlarmsOf(delays: seq<nat>, now: nat): multiset<Alarm> {
    multiset(seq(|delays|, i requires 0 <= i < |delays| => Alarm(now + delays[i], delays[i])))
  }

  lemma AlarmsAreDelays(delays: seq<nat>, now: nat, a: Alarm)
    ensures a in AlarmsOf(delays, now) <==> a.delay in delays && a.due == now + a.delay
  {
    var alarms := seq(|delays|, i requires 0 <= i < |delays| => Alarm(now + delays[i], delays[i]));
    if a.delay in delays && a.due == now + a.delay {
      var i :| 0 <= i < |delays| && delays[i] == a.delay;
      assert alarms[i] == a;
    }
  }

  function PlanPolled(q: Place, me: Str, subscribers: nat, now: nat): Plan {
    var n := OnPoll(q.node, subscribers);
    var timers := if Holds(q.node) || Holds(n) then [] else Timers(n, me, now);
    q.plan.(nextPoll := now + SYNC_FREQUENCY, alarms := q.plan.alarms + AlarmsOf(timers, now))
  }

  function PlansAfter(w: World, e: Event, now: nat): seq<Plan>
    requires |w.names| == |w.net.nodes| == |w.net.queues| == |w.plans| && Enabled(w.net, e)
  {
    match e
    case Poll(i, subscribers, _, _) => w.plans[i := PlanPolled(PlaceAt(w, i), w.names[i], subscribers, now)]
    case Timer(i, delay, _) => w.plans[i := w.plans[i].(alarms := w.plans[i].alarms - multiset{Alarm(now, delay)})]
    case _ => w.plans
  }

  ghost function Next(w: World, m: Moment): World
    requires Possible(w, m)
  {
    match m
    case Act(e, now) => World(now, w.names, After(w.net, e), PlansAfter(w, e, now))
    case Die(i, now) =>
      World(now, w.names, w.net.(nodes := w.net.nodes[i := BLANK], queues := w.net.queues[i := []]),
            w.plans[i := w.plans[i].(up := false, alarms := multiset{})])
    case Rest(now) => w.(clock := now)
  }

  ghost predicate Lawful(w: World, ms: seq<Moment>)
    decreases |ms|, 0
  {
    ms == [] || (Lawful(w, ms[..|ms| - 1]) && Possible(Later(w, ms[..|ms| - 1]), ms[|ms| - 1]))
  }

  ghost function Later(w: World, ms: seq<Moment>): World
    requires Lawful(w, ms)
    decreases |ms|, 1
  {
    if ms == [] then w else Next(Later(w, ms[..|ms| - 1]), ms[|ms| - 1])
  }

  /** Time never gets stuck: it can pass up to `now`, or some poll or timer is due before. */
  lemma {:induction false} TimeGoesOn(w: World, now: nat) returns (m: Moment)
    requires Shaped(w) && Punctual(w, w.clock) && w.clock <= now
    ensures Possible(w, m) && (if m.Rest? then m.now == now else m.now < now)
    decreases now
  {
    m := Rest(now);
    if !Punctual(w, now) {
      m := TimeGoesOn(w, now - 1);
      if m.Rest? {
        var i: nat :| i < |w.plans| && w.plans[i].up && !OnTime(w.plans[i], now);
        assert OnTime(w.plans[i], now - 1);
        if w.plans[i].nextPoll < now {
          m := Act(Poll(i, 0, [], []), now - 1);
        } else {
          var alarm :| alarm in w.plans[i].alarms && alarm.due < now;
          m := Act(Timer(i, alarm.delay, now - 1), now - 1);
        }
      }
    }
  }

  /** The moment is something that node `i` does or undergoes. */
  predicate Touches(m: Moment, i: nat) {
    match m
    case Die(j, _) => j == i
    case Rest(_) => false
    case Act(e, _) =>
      match e
      case Deliver(p, _) => p.dst == i
      case Lose(_) => false
      case _ => e.i == i
  }

  /** What a moment does to the node it touches. */
  function PlaceAfter(q: Place, me: Str, m: Moment): Place {
    match m
    case Die(_, _) => Place(BLANK, q.plan.(up := false, alarms := multiset{}))
    case Rest(_) => q
    case Act(e, now) =>
      match e
      case Poll(_, subscribers, _, _) => Place(OnPoll(q.node, subscribers), PlanPolled(q, me, subscribers, now))
      case Send(_, _) => q.(node := OnSyncSent(q.node, now))
      case Deliver(p, _) => q.(node := OnSync(q.node, p.count, p.peers, now))
      case Lose(_) => q
      case Timer(_, delay, _) => PlaceWoken(q, delay, now)
      case Seize(_, _) => q.(node := OnSeize(q.node, now))
  }

  function PlaceWoken(q: Place, delay: nat, now: nat): Place {
    Place(OnTimer(q.node, delay, now), q.plan.(alarms := q.plan.alarms - multiset{Alarm(now, delay)}))
  }

  lemma PlaceStep(w: World, m: Moment, i: nat)
    requires Possible(w, m) && i < |w.names|
    ensures Shaped(Next(w, m)) && Next(w, m).names == w.names && Next(w, m).clock == m.now
    ensures PlaceAt(Next(w, m), i) == if Touches(m, i) then PlaceAfter(PlaceAt(w, i), w.names[i], m) else PlaceAt(w, i)
  {
    match m
    case Die(_, _) =>
    case Rest(_) =>
    case Act(e, now) => ActStep(w, e, now, i);
  }

  lemma ActStep(w: World, e: Event, now: nat, i: nat)
    requires Shaped(w) && Enabled(w.net, e) && Allowed(w, e, now) && i < |w.names|
    ensures |After(w.net, e).nodes| == |After(w.net, e).queues| == |PlansAfter(w, e, now)| == |w.names|
    ensures Place(After(w.net, e).nodes[i], PlansAfter(w, e, now)[i]) ==
            if Touches(Act(e, now), i) then PlaceAfter(PlaceAt(w, i), w.names[i], Act(e, now)) else PlaceAt(w, i)
  {
    match e
    case Poll(_, _, _, _) =>
    case Send(_, _) =>
    case Deliver(_, _) =>
    case Lose(_) =>
    case Timer(_, _, _) =>
    case Seize(_, _) =>
  }

  // ---------------------------------------------------------------- the real-time runs are runs of `Ball`

  ghost predicate NobodyDies(ms: seq<Moment>) { forall k :: 0 <= k < |ms| ==> !ms[k].Die? }

  function Untimed(ms: seq<Moment>): seq<Event> {
    if ms == [] then []
    else
      var m := ms[|ms| - 1];
      Untimed(ms[..|ms| - 1]) + if m.Act? then [m.e] else []
  }

  /** Leaving out the clock, a run without deaths is a run of the untimed network, so that the laws
      there hold here: above all that conflict resolution keeps the token. */
  lemma {:induction false} TimedRunIsRun(w: World, ms: seq<Moment>)
    requires Lawful(w, ms) && NobodyDies(ms)
    ensures Legal(w.net, Untimed(ms)) && Exec(w.net, Untimed(ms)) == Later(w, ms).net
  {
    if ms == [] {
    } else {
      var front, m := ms[..|ms| - 1], ms[|ms| - 1];
      TimedRunIsRun(w, front);
      if m.Act? {
        assert Enabled(Later(w, front).net, m.e) && Later(w, ms).net == After(Later(w, front).net, m.e);
        RunAppend(w.net, Untimed(front), m.e);
      } else {
        assert Untimed(ms) == Untimed(front);
      }
    }
  }

  lemma TokenSurvivesInTime(w: World, ms: seq<Moment>)
    requires Quiet(w.net) && Lawful(w, ms) && NobodyDies(ms)
    requires Legal(w.net, Untimed(ms)) && NoHandOver(w.net, Untimed(ms))
    ensures Held(Later(w, ms).net)
  {
    TimedRunIsRun(w, ms);
    TokenSurvives(w.net, Untimed(ms));
  }

  // ---------------------------------------------------------------- when a waiting node takes over

  /** Too old to act for a node that recorded its SYNC at `last`. */
  predicate Stale(a: Alarm, last: nat) { a.due <= last + PATIENCE + a.delay }

  /** The node is up, last heard of a SYNC at `last`, and nothing it has to do is late. */
  ghost predicate Waits(q: Place, clock: nat, last: nat) {
    q.plan.up && q.node.lastSync == Some(last) && OnTime(q.plan, clock)
  }

  /** Not before its turn: its timers are too old to act or wait for its first position `r`. */
  ghost predicate NotEarly(q: Place, me: Str, clock: nat, last: nat, r: nat) {
    && Waits(q, clock, last) && FirstAt(PeersOf(q.node), me, r)
    && (Holds(q.node) ==> clock > last + PATIENCE + Delay(r))
    && forall a :: a in q.plan.alarms ==> Stale(a, last) || a.delay >= Delay(r)
  }

  /** No later than `bound`: a timer that will act is pending, or a poll that dispatches one in time. */
  ghost predicate NotLate(q: Place, me: Str, clock: nat, last: nat, bound: nat) {
    && Waits(q, clock, last)
    && (|| Holds(q.node)
        || (exists a :: a in q.plan.alarms && !Stale(a, last) && a.due <= bound)
        || (exists r: nat :: r < |PeersOf(q.node)| && PeersOf(q.node)[r].peerId == me
                             && q.plan.nextPoll + Delay(r) <= bound && last + PATIENCE + SYNC_FREQUENCY + Delay(r) <= bound))
  }

  /** The moment leaves node `i` to its polls and timers. */
  predicate LeftAlone(m: Moment, i: nat) {
    Touches(m, i) ==> m.Act? && (m.e.Poll? || m.e.Timer?)
  }

  /** What `Possible` says about the node that a moment touches. */
  ghost predicate Plausible(q: Place, m: Moment) {
    && (m.Act? ==> q.plan.up && OnTime(q.plan, m.now))
    && (m.Act? && m.e.Poll? ==> m.now == q.plan.nextPoll)
    && (m.Act? && m.e.Timer? ==> Alarm(m.now, m.e.delay) in q.plan.alarms)
  }

  lemma TimersOfPoll(n: Node, me: Str, last: nat, now: nat, a: Alarm)
    requires n.lastSync == Some(last)
    ensures a in AlarmsOf(Timers(n, me, now), now) <==>
            && now > last + PATIENCE && a.due == now + a.delay
            && exists r: nat :: r < |PeersOf(n)| && PeersOf(n)[r].peerId == me && a.delay == Delay(r)
  {
    AlarmsAreDelays(Timers(n, me, now), now, a);
    TimersAreRanks(PeersOf(n), me, |PeersOf(n)|, a.delay);
  }

  lemma DelayGrows(r: nat, k: nat)
    requires r <= k
    ensures Delay(r) <= Delay(k)
  {
  }

  lemma PollIsNotEarly(q: Place, me: Str, clock: nat, last: nat, r: nat, subscribers: nat, now: nat)
    requires NotEarly(q, me, clock, last, r) && clock <= now == q.plan.nextPoll && OnTime(q.plan, now)
    ensures NotEarly(Place(OnPoll(q.node, subscribers), PlanPolled(q, me, subscribers, now)), me, now, last, r)
  {
    var n := OnPoll(q.node, subscribers);
    var plan := PlanPolled(q, me, subscribers, now);
    forall a | a in plan.alarms && a !in q.plan.alarms ensures a.delay >= Delay(r) && now <= a.due {
      TimersOfPoll(n, me, last, now, a);
      var k: nat :| k < |PeersOf(n)| && PeersOf(n)[k].peerId == me && a.delay == Delay(k);
      DelayGrows(r, k);
    }
  }

  lemma WakeIsNotEarly(q: Place, me: Str, clock: nat, last: nat, r: nat, delay: nat, now: nat)
    requires NotEarly(q, me, clock, last, r) && clock <= now && OnTime(q.plan, now) && Alarm(now, delay) in q.plan.alarms
    ensures NotEarly(PlaceWoken(q, delay, now), me, now, last, r)
  {
  }

  lemma WakeIsNotLate(q: Place, me: Str, clock: nat, last: nat, bound: nat, delay: nat, now: nat)
    requires NotLate(q, me, clock, last, bound) && clock <= now && OnTime(q.plan, now) && Alarm(now, delay) in q.plan.alarms
    ensures NotLate(PlaceWoken(q, delay, now), me, now, last, bound)
  {
    if !Holds(q.node) {
      if a :| a in q.plan.alarms && !Stale(a, last) && a.due <= bound {
        assert a != Alarm(now, delay) ==> a in PlaceWoken(q, delay, now).plan.alarms;
      }
    }
  }

  lemma PollIsNotLate(q: Place, me: Str, clock: nat, last: nat, bound: nat, subscribers: nat, now: nat)
    requires NotLate(q, me, clock, last, bound) && clock <= now == q.plan.nextPoll && OnTime(q.plan, now)
    ensures NotLate(Place(OnPoll(q.node, subscribers), PlanPolled(q, me, subscribers, now)), me, now, last, bound)
  {
    var n := OnPoll(q.node, subscribers);
    var plan := PlanPolled(q, me, subscribers, now);
    forall a | a in plan.alarms && a !in q.plan.alarms ensures now <= a.due {
      TimersOfPoll(n, me, last, now, a);
    }
    assert Waits(Place(n, plan), now, last);
    if !Holds(n) {
      if a :| a in q.plan.alarms && !Stale(a, last) && a.due <= bound {
        assert a in plan.alarms;
      } else {
        PollIsInTime(n, me, last, bound, now);
      }
    }
  }

  // A poll that finds the last SYNC overdue dispatches a timer in time; otherwise the next one is.
  lemma PollIsInTime(n: Node, me: Str, last: nat, bound: nat, now: nat)
    requires n.lastSync == Some(last)
    requires exists r: nat :: r < |PeersOf(n)| && PeersOf(n)[r].peerId == me
                              && now + Delay(r) <= bound && last + PATIENCE + SYNC_FREQUENCY + Delay(r) <= bound
    ensures if now > last + PATIENCE then exists a :: a in AlarmsOf(Timers(n, me, now), now) && !Stale(a, last) && a.due <= bound
            else exists r: nat :: r < |PeersOf(n)| && PeersOf(n)[r].peerId == me
                                  && now + SYNC_FREQUENCY + Delay(r) <= bound && last + PATIENCE + SYNC_FREQUENCY + Delay(r) <= bound
  {
    var r: nat :| r < |PeersOf(n)| && PeersOf(n)[r].peerId == me
                  && now + Delay(r) <= bound && last + PATIENCE + SYNC_FREQUENCY + Delay(r) <= bound;
    if now > last + PATIENCE {
      var mine := Alarm(now + Delay(r), Delay(r));
      TimersOfPoll(n, me, last, now, mine);
    }
  }

  /** Node `i` does not hold the token, recorded a SYNC at `last` whose list has it first at position
      `r`, polls within 30 s of it, and has no timer dispatched since. */
  ghost predicate Armed(w: World, i: nat, last: nat, r: nat) {
    && Shaped(w) && i < |w.names|
    && var q := PlaceAt(w, i);
       && Waits(q, w.clock, last) && !Holds(q.node) && FirstAt(PeersOf(q.node), w.names[i], r)
       && q.plan.nextPoll <= last + PATIENCE + SYNC_FREQUENCY
       && forall a :: a in q.plan.alarms ==> Stale(a, last)
  }

  ghost predicate AllLeaveAlone(ms: seq<Moment>, i: nat) { forall k :: 0 <= k < |ms| ==> LeftAlone(ms[k], i) }

  function Latest(last: nat, r: nat): nat { last + PATIENCE + SYNC_FREQUENCY + Delay(r) }

  lemma MomentIsPlausible(w: World, m: Moment, i: nat)
    requires Possible(w, m) && i < |w.names|
    ensures w.clock <= m.now && (w.plans[i].up ==> OnTime(w.plans[i], m.now))
    ensures Touches(m, i) ==> Plausible(PlaceAt(w, i), m)
  {
  }

  lemma MomentKeepsWindow(w: World, m: Moment, i: nat, last: nat, r: nat, bound: nat)
    requires Possible(w, m) && i < |w.names| && LeftAlone(m, i)
    requires NotEarly(PlaceAt(w, i), w.names[i], w.clock, last, r) && NotLate(PlaceAt(w, i), w.names[i], w.clock, last, bound)
    ensures var w' := Next(w, m);
            && Shaped(w') && w'.names == w.names
            && NotEarly(PlaceAt(w', i), w.names[i], w'.clock, last, r) && NotLate(PlaceAt(w', i), w.names[i], w'.clock, last, bound)
  {
    var q, me := PlaceAt(w, i), w.names[i];
    MomentIsPlausible(w, m, i);
    PlaceStep(w, m, i);
    if Touches(m, i) {
      match m.e
      case Poll(_, subscribers, _, _) =>
        PollIsNotEarly(q, me, w.clock, last, r, subscribers, m.now);
        PollIsNotLate(q, me, w.clock, last, bound, subscribers, m.now);
      case Timer(_, delay, _) =>
        WakeIsNotEarly(q, me, w.clock, last, r, delay, m.now);
        WakeIsNotLate(q, me, w.clock, last, bound, delay, m.now);
    }
  }

  lemma {:induction false} RunKeepsWindow(w: World, ms: seq<Moment>, i: nat, last: nat, r: nat)
    requires Armed(w, i, last, r) && Lawful(w, ms) && AllLeaveAlone(ms, i)
    ensures var t := Later(w, ms);
            && Shaped(t) && t.names == w.names
            && NotEarly(PlaceAt(t, i), w.names[i], t.clock, last, r)
            && NotLate(PlaceAt(t, i), w.names[i], t.clock, last, Latest(last, r))
  {
    if ms == [] {
    } else {
      RunKeepsWindow(w, ms[..|ms| - 1], i, last, r);
      MomentKeepsWindow(Later(w, ms[..|ms| - 1]), ms[|ms| - 1], i, last, r, Latest(last, r));
    }
  }

  /** Whatever the other nodes do: a node that hears no SYNC and sends none does not hold the token up to
      L + 20 + 10 (r + 1) seconds, and holds it after L + 30 + 10 (r + 1). */
  lemma TakeOverWindow(w: World, ms: seq<Moment>, i: nat, last: nat, r: nat)
    requires Armed(w, i, last, r) && Lawful(w, ms) && AllLeaveAlone(ms, i)
    ensures var t := Later(w, ms);
            && i < |t.net.nodes|
            && (HoldsAt(t.net, i) ==> t.clock > last + PATIENCE + Delay(r))
            && (t.clock > Latest(last, r) ==> HoldsAt(t.net, i))
  {
    RunKeepsWindow(w, ms, i, last, r);
  }

  /** A node that took over like this, if it has somebody to tell, queues a SYNC with its count at its next
      poll, whatever the contract lists. */
  lemma TakeOverIsAnnounced(w: World, ms: seq<Moment>, i: nat, last: nat, r: nat, m: Moment)
    requires Armed(w, i, last, r) && Lawful(w, ms) && AllLeaveAlone(ms, i) && HoldsAt(Later(w, ms).net, i)
    requires Possible(Later(w, ms), m) && m.Act? && m.e.Poll? && m.e.i == i && m.e.peers != []
    ensures var before, after := Later(w, ms).net, Next(Later(w, ms), m).net;
            && i < |before.queues| == |after.queues| && HoldsAt(after, i)
            && after.queues[i] == before.queues[i] + [Pending(CountOf(before.nodes[i]), m.e.targets, m.e.peers)]
  {
    RunKeepsWindow(w, ms, i, last, r);
    PollDecides(Later(w, ms).net, i, m.e.subscribers, m.e.targets, m.e.peers);
  }

  /** Whenever a node holds the token, every live node before it already does: among those that recorded
      the same SYNC the first of the list takes over first. A node that recorded its own hand-over, 20 s
      ahead, stands back two places. */
  lemma LowestRankFirst(w: World, ms: seq<Moment>, i: nat, lastI: nat, first: nat, j: nat, lastJ: nat, second: nat)
    requires Armed(w, i, lastI, first) && Armed(w, j, lastJ, second)
    requires Lawful(w, ms) && AllLeaveAlone(ms, i) && AllLeaveAlone(ms, j)
    requires lastI + (first + 1) * 10 * SECOND <= lastJ + second * 10 * SECOND
    ensures HoldsAt(Later(w, ms).net, j) ==> HoldsAt(Later(w, ms).net, i)
  {
    TakeOverWindow(w, ms, i, lastI, first);
    TakeOverWindow(w, ms, j, lastJ, second);
  }
}
