/** What happens when nobody holds the token: who brings it back, and when it is lost for good. */
module Stranding {
  import opened Options
  import opened Text
  import opened Ball
  import opened Takeover

  // ---------------------------------------------------------------- what every reachable network keeps

  ghost predicate WellTimed(q: Place, clock: nat) {
    && q.plan.nextPoll <= clock + SYNC_FREQUENCY
    && (q.node.lastSync.Some? ==> q.node.lastSync.value <= clock + 20 * SECOND)
    && forall a :: a in q.plan.alarms ==> a.due <= clock + a.delay
  }

  /** A node with a list or with timers is on a list; so is whoever a SYNC is for. */
  ghost predicate Addressed(q: Place, me: Str) {
    && (PeersOf(q.node) != [] ==> q.node.lastSync.Some? && Named(PeersOf(q.node), me))
    && (forall a :: a in q.plan.alarms ==> PeersOf(q.node) != [])
  }

  ghost predicate PendingAddressed(names: seq<Str>, m: Pending) {
    && m.peers != [] && |m.targets| == |m.peers|
    && forall k :: 0 <= k < |m.targets| ==> m.targets[k] < |names| && names[m.targets[k]] == m.peers[k].peerId
  }

  ghost predicate PacketAddressed(names: seq<Str>, p: Packet) {
    p.peers != [] && p.dst < |names| && Named(p.peers, names[p.dst])
  }

  ghost predicate MailAddressed(names: seq<Str>, s: System) {
    && (forall i, k :: 0 <= i < |s.queues| && 0 <= k < |s.queues[i]| ==> PendingAddressed(names, s.queues[i][k]))
    && (forall p :: p in s.wire ==> PacketAddressed(names, p))
  }

  ghost predicate Sound(w: World) {
    && Shaped(w) && Punctual(w, w.clock) && MailAddressed(w.names, w.net)
    && forall i :: 0 <= i < |w.names| ==>
         Addressed(PlaceAt(w, i), w.names[i]) && (w.plans[i].up ==> WellTimed(PlaceAt(w, i), w.clock))
  }

  /** A network at its start. */
  ghost predicate Fresh(w: World) {
    && Shaped(w) && w.net.wire == multiset{} && Punctual(w, w.clock)
    && forall i :: 0 <= i < |w.names| ==>
         && w.net.nodes[i] == BLANK && w.net.queues[i] == []
         && w.plans[i].alarms == multiset{} && w.plans[i].nextPoll <= w.clock + SYNC_FREQUENCY
  }

  lemma SendKeepsAddresses(names: seq<Str>, s: System, e: Event)
    requires MailAddressed(names, s) && |s.nodes| == |names| && Enabled(s, e) && e.Send?
    ensures MailAddressed(names, After(s, e))
  {
    var s', head := After(s, e), s.queues[e.i][0];
    forall p | p in s'.wire ensures PacketAddressed(names, p) {
      if p !in s.wire {
        assert p in Packets(head);
        var k :| 0 <= k < |head.targets| && p == Packet(head.targets[k], head.count, head.peers);
        assert head.peers[k].peerId == names[p.dst];
      }
    }
    forall j, k | 0 <= j < |s'.queues| && 0 <= k < |s'.queues[j]| ensures PendingAddressed(names, s'.queues[j][k]) {
      assert s'.queues[j][k] == if j == e.i then s.queues[j][k + 1] else s.queues[j][k];
    }
  }

  lemma PollKeepsAddresses(w: World, e: Event, now: nat)
    requires Shaped(w) && MailAddressed(w.names, w.net) && Enabled(w.net, e) && Allowed(w, e, now) && e.Poll?
    ensures MailAddressed(w.names, After(w.net, e))
  {
  }

  lemma MailStaysAddressed(w: World, m: Moment)
    requires Possible(w, m) && MailAddressed(w.names, w.net)
    ensures MailAddressed(w.names, Next(w, m).net)
  {
    match m
    case Die(_, _) =>
    case Rest(_) =>
    case Act(e, now) =>
      match e
      case Poll(_, _, _, _) => PollKeepsAddresses(w, e, now);
      case Send(_, _) => SendKeepsAddresses(w.names, w.net, e);
      case _ =>
  }

  // A SYNC that arrives carries a list with the receiver on it.
  ghost predicate Apt(m: Moment, me: Str) {
    m.Act? && m.e.Deliver? ==> m.e.p.peers != [] && Named(m.e.p.peers, me)
  }

  lemma AlarmsNeedList(n: Node, me: Str, now: nat, a: Alarm)
    requires a in AlarmsOf(Timers(n, me, now), now)
    ensures n.lastSync.Some? && PeersOf(n) != [] && a.due == now + a.delay
  {
    AlarmsAreDelays(Timers(n, me, now), now, a);
    if n.lastSync.Some? {
      TimersOfPoll(n, me, n.lastSync.value, now, a);
    }
  }

  lemma PollStaysAddressed(q: Place, me: Str, subscribers: nat, now: nat)
    requires Addressed(q, me)
    ensures Addressed(Place(OnPoll(q.node, subscribers), PlanPolled(q, me, subscribers, now)), me)
  {
    var n, plan := OnPoll(q.node, subscribers), PlanPolled(q, me, subscribers, now);
    forall a | a in plan.alarms && a !in q.plan.alarms ensures PeersOf(n) != [] {
      AlarmsNeedList(n, me, now, a);
    }
  }

  // What a moment other than a poll does to the node it touches, in outline.
  lemma OtherMoments(q: Place, me: Str, m: Moment)
    requires !(m.Act? && m.e.Poll?)
    ensures var q' := PlaceAfter(q, me, m);
            && q'.plan.nextPoll == q.plan.nextPoll && q'.plan.alarms <= q.plan.alarms
            && (m.Die? || q'.node.syncPeers == if m.Act? && m.e.Deliver? then Some(m.e.p.peers) else q.node.syncPeers)
            && (m.Die? || q'.node.lastSync == q.node.lastSync ||
                q'.node.lastSync == Some(if m.Act? && m.e.Deliver? then m.now else m.now + 20 * SECOND))
            && (m.Die? ==> q' == Place(BLANK, Plan(false, q.plan.nextPoll, multiset{})))
  {
  }

  lemma OthersStayAddressed(q: Place, me: Str, m: Moment)
    requires Addressed(q, me) && Apt(m, me) && !(m.Act? && m.e.Poll?)
    ensures Addressed(PlaceAfter(q, me, m), me)
  {
    OtherMoments(q, me, m);
  }

  lemma PlaceStaysAddressed(q: Place, me: Str, m: Moment)
    requires Addressed(q, me) && Apt(m, me)
    ensures Addressed(PlaceAfter(q, me, m), me)
  {
    if m.Act? && m.e.Poll? {
      PollStaysAddressed(q, me, m.e.subscribers, m.now);
    } else {
      OthersStayAddressed(q, me, m);
    }
  }

  lemma PollStaysTimed(q: Place, me: Str, clock: nat, subscribers: nat, now: nat)
    requires WellTimed(q, clock) && clock <= now && OnTime(q.plan, now)
    ensures var plan := PlanPolled(q, me, subscribers, now);
            WellTimed(q.(plan := plan), now) && OnTime(plan, now)
  {
    var n, plan := OnPoll(q.node, subscribers), PlanPolled(q, me, subscribers, now);
    forall a | a in plan.alarms && a !in q.plan.alarms ensures a.due == now + a.delay {
      AlarmsNeedList(n, me, now, a);
    }
  }

  lemma OthersStayTimed(q: Place, me: Str, clock: nat, m: Moment)
    requires WellTimed(q, clock) && clock <= m.now && OnTime(q.plan, m.now)
    requires !(m.Act? && m.e.Poll?)
    ensures WellTimed(PlaceAfter(q, me, m), m.now) && OnTime(PlaceAfter(q, me, m).plan, m.now)
  {
    OtherMoments(q, me, m);
  }

  lemma PlaceStaysTimed(q: Place, me: Str, clock: nat, m: Moment)
    requires WellTimed(q, clock) && clock <= m.now && OnTime(q.plan, m.now)
    ensures WellTimed(PlaceAfter(q, me, m), m.now) && OnTime(PlaceAfter(q, me, m).plan, m.now)
  {
    if m.Act? && m.e.Poll? {
      PollStaysTimed(q, me, clock, m.e.subscribers, m.now);
    } else {
      OthersStayTimed(q, me, clock, m);
    }
  }

  lemma MomentIsApt(w: World, m: Moment, i: nat)
    requires Possible(w, m) && MailAddressed(w.names, w.net) && i < |w.names| && Touches(m, i)
    ensures Apt(m, w.names[i])
  {
    if m.Act? && m.e.Deliver? {
      assert PacketAddressed(w.names, m.e.p);
    }
  }

  lemma StepKeepsSound(w: World, m: Moment)
    requires Sound(w) && Possible(w, m)
    ensures Sound(Next(w, m)) && Next(w, m).names == w.names && Next(w, m).clock == m.now
  {
    var w' := Next(w, m);
    MailStaysAddressed(w, m);
    forall i: nat | i < |w.names|
      ensures Shaped(w') && w'.names == w.names && w'.clock == m.now
      ensures Addressed(PlaceAt(w', i), w.names[i])
      ensures w'.plans[i].up ==> WellTimed(PlaceAt(w', i), m.now) && OnTime(w'.plans[i], m.now)
    {
      SoundStepAt(w, m, i);
    }
  }

  lemma SoundStepAt(w: World, m: Moment, i: nat)
    requires Sound(w) && Possible(w, m) && i < |w.names|
    ensures var w' := Next(w, m);
            && Shaped(w') && w'.names == w.names && w'.clock == m.now
            && Addressed(PlaceAt(w', i), w.names[i])
            && (w'.plans[i].up ==> WellTimed(PlaceAt(w', i), m.now) && OnTime(w'.plans[i], m.now))
  {
    PlaceStep(w, m, i);
    MomentIsPlausible(w, m, i);
    if Touches(m, i) {
      MomentIsApt(w, m, i);
      PlaceStaysAddressed(PlaceAt(w, i), w.names[i], m);
      if w.plans[i].up {
        PlaceStaysTimed(PlaceAt(w, i), w.names[i], w.clock, m);
      }
    }
  }

  /** In every reachable network timers are dispatched at most their delay ahead, and whoever has a
      list or is sent one is on it. */
  lemma {:induction false} ReachableIsSound(w: World, ms: seq<Moment>)
    requires Fresh(w) && Lawful(w, ms)
    ensures Sound(Later(w, ms)) && Later(w, ms).names == w.names
  {
    if ms == [] {
    } else {
      ReachableIsSound(w, ms[..|ms| - 1]);
      StepKeepsSound(Later(w, ms[..|ms| - 1]), ms[|ms| - 1]);
    }
  }

  /** A SYNC that reaches a node arms it, and so does the hand-over by which a listed node parts with the
      token; every timer dispatched before is too old from then on. */
  lemma SyncArms(w: World, m: Moment, i: nat, r: nat)
    requires Sound(w) && Possible(w, m) && m.Act? && i < |w.names|
    requires || (m.e.Deliver? && m.e.p.dst == i && FirstAt(m.e.p.peers, w.names[i], r) && !HoldsAt(Next(w, m).net, i))
             || (m.e.Send? && m.e.i == i && AtCap(w.net.nodes[i]) && FirstAt(PeersOf(w.net.nodes[i]), w.names[i], r))
    ensures Armed(Next(w, m), i, if m.e.Send? then m.now + 20 * SECOND else m.now, r)
  {
    PlaceStep(w, m, i);
    SoundStepAt(w, m, i);
    assert OnTime(w.plans[i], m.now);
  }

  // ---------------------------------------------------------------- when nobody holds the token

  /** Nobody holds the token, and no SYNC is queued or on its way. */
  ghost predicate Idle(w: World) {
    && Shaped(w) && !Held(w.net) && w.net.wire == multiset{}
    && forall i :: 0 <= i < |w.names| ==> w.net.queues[i] == []
  }

  /** The node is on its own list, or has a timer that will act. */
  ghost predicate CanReturn(q: Place, me: Str) {
    && q.plan.up && q.node.lastSync.Some?
    && (Named(PeersOf(q.node), me) || exists a :: a in q.plan.alarms && !Stale(a, q.node.lastSync.value))
  }

  ghost predicate Stranded(w: World) {
    Idle(w) && forall i :: 0 <= i < |w.names| ==> !CanReturn(PlaceAt(w, i), w.names[i])
  }

  /** The only ways to create a token: a sole subscriber's poll, and seizing it after three quiet minutes. */
  ghost predicate Creates(w: World, m: Moment)
    requires Possible(w, m)
  {
    m.Act? &&
    match m.e
    case Poll(i, subscribers, _, _) => subscribers == 1 && PeersOf(w.net.nodes[i]) == []
    case Seize(i, now) => Holds(OnSeize(w.net.nodes[i], now))
    case _ => false
  }

  predicate CreatesHere(q: Place, m: Moment) {
    m.Act? &&
    match m.e
    case Poll(_, subscribers, _, _) => subscribers == 1 && PeersOf(q.node) == []
    case Seize(_, _) => Holds(OnSeize(q.node, m.now))
    case _ => false
  }

  lemma IdleHasNoMail(w: World, m: Moment)
    requires Idle(w) && Possible(w, m)
    ensures m.Act? ==> !m.e.Send? && !m.e.Deliver? && !m.e.Lose?
  {
  }

  lemma IdleStep(w: World, m: Moment)
    requires Idle(w) && Possible(w, m) && !Held(Next(w, m).net)
    ensures Idle(Next(w, m))
  {
    IdleHasNoMail(w, m);
    if m.Act? && m.e.Poll? {
      assert !HoldsAt(w.net, m.e.i);
    }
  }

  lemma StrandedPoll(q: Place, me: Str, subscribers: nat, now: nat)
    requires !Holds(q.node) && !CanReturn(q, me)
    ensures !CanReturn(Place(OnPoll(q.node, subscribers), PlanPolled(q, me, subscribers, now)), me)
  {
    var n, plan := OnPoll(q.node, subscribers), PlanPolled(q, me, subscribers, now);
    if q.plan.up && n.lastSync.Some? {
      forall a | a in plan.alarms ensures a in q.plan.alarms {
        if a !in q.plan.alarms {
          TimersOfPoll(n, me, n.lastSync.value, now, a);
          assert Named(PeersOf(q.node), me);
        }
      }
    }
  }

  lemma StrandedWake(q: Place, me: Str, delay: nat, now: nat)
    requires q.plan.up && !Holds(q.node) && !CanReturn(q, me) && Alarm(now, delay) in q.plan.alarms
    ensures OnTimer(q.node, delay, now) == q.node && !CanReturn(PlaceWoken(q, delay, now), me)
  {
    if q.node.lastSync.Some? {
      assert Stale(Alarm(now, delay), q.node.lastSync.value);
    }
  }

  lemma StrandedPlace(q: Place, me: Str, m: Moment)
    requires !Holds(q.node) && !CanReturn(q, me) && Plausible(q, m)
    requires m.Act? ==> !m.e.Send? && !m.e.Deliver?
    ensures !CanReturn(PlaceAfter(q, me, m), me)
    ensures Holds(PlaceAfter(q, me, m).node) <==> CreatesHere(q, m)
  {
    match m
    case Die(_, _) =>
    case Rest(_) =>
    case Act(e, now) =>
      match e
      case Poll(_, subscribers, _, _) => StrandedPoll(q, me, subscribers, now);
      case Timer(_, delay, _) => StrandedWake(q, me, delay, now);
      case Seize(_, _) =>
      case Lose(_) =>
  }

  lemma CreatorIsTouched(w: World, m: Moment)
    requires Possible(w, m)
    ensures Creates(w, m) ==> exists i: nat :: i < |w.names| && Touches(m, i)
    ensures forall i: nat :: i < |w.names| && Touches(m, i) ==> (Creates(w, m) <==> CreatesHere(PlaceAt(w, i), m))
  {
    if Creates(w, m) {
      assert m.e.i < |w.names| && Touches(m, m.e.i);
    }
  }

  lemma StrandedStepAt(w: World, m: Moment, i: nat)
    requires Stranded(w) && Possible(w, m) && i < |w.names|
    ensures Shaped(Next(w, m)) && Next(w, m).names == w.names && !CanReturn(PlaceAt(Next(w, m), i), w.names[i])
    ensures HoldsAt(Next(w, m).net, i) <==> Touches(m, i) && Creates(w, m)
  {
    IdleHasNoMail(w, m);
    assert !HoldsAt(w.net, i);
    PlaceStep(w, m, i);
    CreatorIsTouched(w, m);
    MomentIsPlausible(w, m, i);
    if Touches(m, i) {
      StrandedPlace(PlaceAt(w, i), w.names[i], m);
    }
  }

  /** From a stranded network the next moment brings the token back exactly if it creates one, and otherwise
      leaves the network stranded. */
  lemma StrandedStep(w: World, m: Moment)
    requires Stranded(w) && Possible(w, m)
    ensures Held(Next(w, m).net) <==> Creates(w, m)
    ensures !Creates(w, m) ==> Stranded(Next(w, m))
  {
    var w' := Next(w, m);
    forall i: nat | i < |w.names|
      ensures Shaped(w') && w'.names == w.names && !CanReturn(PlaceAt(w', i), w.names[i])
      ensures HoldsAt(w'.net, i) <==> Touches(m, i) && Creates(w, m)
    {
      StrandedStepAt(w, m, i);
    }
    ShapeStays(w, m);
    if Creates(w, m) {
      CreatorIsTouched(w, m);
      var i: nat :| i < |w.names| && Touches(m, i);
      assert HoldsAt(w'.net, i);
    } else {
      assert forall i: nat :: !HoldsAt(w'.net, i);
      IdleStep(w, m);
    }
  }

  lemma ShapeStays(w: World, m: Moment)
    requires Possible(w, m)
    ensures Shaped(Next(w, m)) && Next(w, m).names == w.names
  {
  }

  ghost predicate NoneCreates(w: World, ms: seq<Moment>)
    requires Lawful(w, ms)
  {
    ms == [] || (NoneCreates(w, ms[..|ms| - 1]) && !Creates(Later(w, ms[..|ms| - 1]), ms[|ms| - 1]))
  }

  /** A stranded token does not come back: whatever polls, timers, deaths and time do, nobody holds it until
      a sole subscriber's poll or a seizure creates another. */
  lemma {:induction false} StrandedForever(w: World, ms: seq<Moment>)
    requires Stranded(w) && Lawful(w, ms) && NoneCreates(w, ms)
    ensures Stranded(Later(w, ms))
  {
    if ms == [] {
    } else {
      StrandedForever(w, ms[..|ms| - 1]);
      StrandedStep(Later(w, ms[..|ms| - 1]), ms[|ms| - 1]);
    }
  }

  ghost predicate NeverHeld(w: World, ms: seq<Moment>)
    requires Lawful(w, ms)
  {
    !Held(Later(w, ms).net) && (ms == [] || NeverHeld(w, ms[..|ms| - 1]))
  }

  predicate Survives(ms: seq<Moment>, i: nat) { forall k :: 0 <= k < |ms| ==> ms[k].Die? ==> ms[k].i != i }

  lemma IdleKeepsPromise(w: World, m: Moment, i: nat, last: nat, bound: nat)
    requires Idle(w) && Possible(w, m) && i < |w.names| && NotLate(PlaceAt(w, i), w.names[i], w.clock, last, bound)
    requires m.Die? ==> m.i != i
    requires !Held(Next(w, m).net)
    ensures Idle(Next(w, m)) && Next(w, m).names == w.names
    ensures NotLate(PlaceAt(Next(w, m), i), w.names[i], Next(w, m).clock, last, bound)
  {
    var q := PlaceAt(w, i);
    IdleHasNoMail(w, m);
    IdleStep(w, m);
    PlaceStep(w, m, i);
    MomentIsPlausible(w, m, i);
    assert !HoldsAt(w.net, i) && !HoldsAt(Next(w, m).net, i);
    if Touches(m, i) {
      match m.e
      case Poll(_, subscribers, _, _) => PollIsNotLate(q, w.names[i], w.clock, last, bound, subscribers, m.now);
      case Timer(_, delay, _) => WakeIsNotLate(q, w.names[i], w.clock, last, bound, delay, m.now);
      case Seize(_, _) => assert PlaceAt(Next(w, m), i) == q;
    }
  }

  lemma {:induction false} IdleRunKeepsPromise(w: World, ms: seq<Moment>, i: nat, last: nat, bound: nat)
    requires Idle(w) && i < |w.names| && NotLate(PlaceAt(w, i), w.names[i], w.clock, last, bound)
    requires Lawful(w, ms) && Survives(ms, i) && NeverHeld(w, ms)
    ensures var t := Later(w, ms);
            Idle(t) && t.names == w.names && NotLate(PlaceAt(t, i), w.names[i], t.clock, last, bound)
  {
    if ms == [] {
    } else {
      IdleRunKeepsPromise(w, ms[..|ms| - 1], i, last, bound);
      IdleKeepsPromise(Later(w, ms[..|ms| - 1]), ms[|ms| - 1], i, last, bound);
    }
  }

  lemma PromiseFallsDue(w: World, ms: seq<Moment>, i: nat, last: nat, bound: nat)
    requires Idle(w) && i < |w.names| && NotLate(PlaceAt(w, i), w.names[i], w.clock, last, bound)
    requires Lawful(w, ms) && Survives(ms, i)
    ensures NeverHeld(w, ms) ==> Later(w, ms).clock <= bound
  {
    if NeverHeld(w, ms) {
      IdleRunKeepsPromise(w, ms, i, last, bound);
      assert !HoldsAt(Later(w, ms).net, i);
    }
  }

  /** From any reachable network without a token, a live node that has a list brings the token back, if it
      stays up, within 50 s and its own delay, unless another node was faster. */
  lemma TokenReturns(w: World, ms: seq<Moment>, i: nat, r: nat)
    requires Sound(w) && Idle(w) && i < |w.names| && w.plans[i].up
    requires var peers := PeersOf(w.net.nodes[i]); r < |peers| && peers[r].peerId == w.names[i]
    requires Lawful(w, ms) && Survives(ms, i) && Later(w, ms).clock > w.clock + 50 * SECOND + Delay(r)
    ensures !NeverHeld(w, ms)
  {
    var q := PlaceAt(w, i);
    var last := q.node.lastSync.value;
    var bound := w.clock + 50 * SECOND + Delay(r);
    assert Addressed(q, w.names[i]) && WellTimed(q, w.clock);
    assert NotLate(q, w.names[i], w.clock, last, bound);
    PromiseFallsDue(w, ms, i, last, bound);
  }

  /** In a network reached from the start, a token that nobody holds is stranded exactly when no live node
      was ever sent a list. */
  lemma StrandedExactly(start: World, ms: seq<Moment>)
    requires Fresh(start) && Lawful(start, ms) && Idle(Later(start, ms))
    ensures var w := Later(start, ms);
            Stranded(w) <==> forall i :: 0 <= i < |w.names| && w.plans[i].up ==> PeersOf(w.net.nodes[i]) == []
  {
    var w := Later(start, ms);
    ReachableIsSound(start, ms);
    forall i: nat | i < |w.names| ensures CanReturn(PlaceAt(w, i), w.names[i]) <==> w.plans[i].up && PeersOf(w.net.nodes[i]) != [] {
      assert Addressed(PlaceAt(w, i), w.names[i]);
    }
  }

  // ---------------------------------------------------------------- a token lost with a node up

  const A: Str := [65]
  const B: Str := [66]
  const LISTED: seq<Peer> := [Peer(B, [])]
  const DEAD: Plan := Plan(false, SYNC_FREQUENCY, multiset{})
  const OPENING: World :=
    World(0, [A, B], System([BLANK, BLANK], [[], []], multiset{}), [Plan(true, 0, multiset{}), Plan(true, SYNC_FREQUENCY, multiset{})])

  /** A after `c` of its SYNCs. */
  function Publisher(c: nat): Node {
    if c == MAX_DATA_UPDATE_COUNT then Node(Some(false), Some(0), None, Some(c * SYNC_FREQUENCY + 20 * SECOND))
    else Node(Some(true), if c == 0 then None else Some(c), None, None)
  }

  function VoidWorld(clock: nat, a: Node, queue: seq<Pending>, wire: multiset<Packet>, nextPoll: nat): World {
    World(clock, [A, B], System([a, BLANK], [queue, []], wire), [Plan(true, nextPoll, multiset{}), DEAD])
  }

  function Alone(c: nat): World {
    VoidWorld(c * SYNC_FREQUENCY, Publisher(c), [], multiset{}, (c + 1) * SYNC_FREQUENCY)
  }

  /** One more SYNC, which reaches nobody. */
  function WithRound(ms: seq<Moment>, c: nat): seq<Moment> {
    var t := (c + 1) * SYNC_FREQUENCY;
    ms + [Act(Poll(0, 2, [1], LISTED), t)] + [Act(Send(0, t), t)] + [Act(Lose(Packet(1, c, LISTED)), t)]
  }

  lemma LaterAppend(w: World, ms: seq<Moment>, m: Moment)
    requires Lawful(w, ms) && Possible(Later(w, ms), m)
    ensures Lawful(w, ms + [m]) && Later(w, ms + [m]) == Next(Later(w, ms), m)
  {
    assert (ms + [m])[..|ms|] == ms;
  }

  lemma VoidPoll(c: nat)
    requires c < MAX_DATA_UPDATE_COUNT
    ensures var t, m := (c + 1) * SYNC_FREQUENCY, Act(Poll(0, 2, [1], LISTED), (c + 1) * SYNC_FREQUENCY);
            && Possible(Alone(c), m)
            && Next(Alone(c), m) == VoidWorld(t, Publisher(c), [Pending(c, [1], LISTED)], multiset{}, t + SYNC_FREQUENCY)
  {
    var w, t := Alone(c), (c + 1) * SYNC_FREQUENCY;
    assert AlarmsOf([], t) == multiset{};
    assert PlanPolled(PlaceAt(w, 0), A, 2, t) == Plan(true, t + SYNC_FREQUENCY, multiset{});
    var s' := After(w.net, Poll(0, 2, [1], LISTED));
    assert w.net.nodes[0 := Publisher(c)] == w.net.nodes;
    assert s'.queues[0] == [Pending(c, [1], LISTED)] && s'.queues[1] == [];
  }

  lemma VoidSend(c: nat)
    requires c < MAX_DATA_UPDATE_COUNT
    ensures var t := (c + 1) * SYNC_FREQUENCY;
            var w := VoidWorld(t, Publisher(c), [Pending(c, [1], LISTED)], multiset{}, t + SYNC_FREQUENCY);
            && Possible(w, Act(Send(0, t), t))
            && Next(w, Act(Send(0, t), t)) == VoidWorld(t, Publisher(c + 1), [], multiset{Packet(1, c, LISTED)}, t + SYNC_FREQUENCY)
  {
    assert Packets(Pending(c, [1], LISTED)) == [Packet(1, c, LISTED)];
    assert [Pending(c, [1], LISTED)][1..] == [];
  }

  lemma VoidLoss(c: nat)
    requires c < MAX_DATA_UPDATE_COUNT
    ensures var t, m := (c + 1) * SYNC_FREQUENCY, Act(Lose(Packet(1, c, LISTED)), (c + 1) * SYNC_FREQUENCY);
            var w := VoidWorld(t, Publisher(c + 1), [], multiset{Packet(1, c, LISTED)}, t + SYNC_FREQUENCY);
            Possible(w, m) && Next(w, m) == Alone(c + 1)
  {
  }

  lemma VoidRound(start: World, c: nat, ms: seq<Moment>)
    requires c < MAX_DATA_UPDATE_COUNT && Lawful(start, ms) && Later(start, ms) == Alone(c)
    ensures Lawful(start, WithRound(ms, c)) && Later(start, WithRound(ms, c)) == Alone(c + 1)
  {
    var t := (c + 1) * SYNC_FREQUENCY;
    VoidPoll(c);
    LaterAppend(start, ms, Act(Poll(0, 2, [1], LISTED), t));
    VoidSend(c);
    LaterAppend(start, ms + [Act(Poll(0, 2, [1], LISTED), t)], Act(Send(0, t), t));
    VoidLoss(c);
    LaterAppend(start, ms + [Act(Poll(0, 2, [1], LISTED), t)] + [Act(Send(0, t), t)], Act(Lose(Packet(1, c, LISTED)), t));
  }

  /** A polls as the sole subscriber; B subscribes and goes down. */
  lemma VoidStart() returns (ms: seq<Moment>)
    ensures Fresh(OPENING) && Lawful(OPENING, ms) && Later(OPENING, ms) == Alone(0)
  {
    var m := Act(Poll(0, 1, [], []), 0);
    assert AlarmsOf([], 0) == multiset{};
    assert Possible(OPENING, m);
    LaterAppend(OPENING, [], m);
    ms := [] + [m];
    assert Possible(Next(OPENING, m), Die(1, 0));
    LaterAppend(OPENING, ms, Die(1, 0));
    ms := ms + [Die(1, 0)];
  }

  /** A sends `c` SYNCs. */
  lemma {:induction false} VoidRun(start: World, opening: seq<Moment>, c: nat) returns (ms: seq<Moment>)
    requires c <= MAX_DATA_UPDATE_COUNT
    requires Lawful(start, opening) && Later(start, opening) == Alone(0)
    ensures Lawful(start, ms) && Later(start, ms) == Alone(c)
  {
    if c == 0 {
      ms := opening;
    } else {
      ms := VoidRun(start, opening, c - 1);
      VoidRound(start, c - 1, ms);
      ms := WithRound(ms, c - 1);
    }
  }

  lemma VoidIsStranded()
    ensures Stranded(Alone(MAX_DATA_UPDATE_COUNT))
  {
    var w := Alone(MAX_DATA_UPDATE_COUNT);
    assert forall i: nat :: !HoldsAt(w.net, i);
    assert !CanReturn(PlaceAt(w, 0), A) && !CanReturn(PlaceAt(w, 1), B);
  }

  /** The token can be lost for good while a node is up: from fresh nodes, one whose only listener has gone
      down hands over to nobody after seven SYNCs, and never takes the token again on its own. */
  lemma TokenCanBeLost(after: seq<Moment>) returns (ms: seq<Moment>)
    requires Lawful(Alone(MAX_DATA_UPDATE_COUNT), after) && NoneCreates(Alone(MAX_DATA_UPDATE_COUNT), after)
    ensures Fresh(OPENING) && Lawful(OPENING, ms) && Later(OPENING, ms) == Alone(MAX_DATA_UPDATE_COUNT)
    ensures var w := Alone(MAX_DATA_UPDATE_COUNT);
            w.plans[0].up && Stranded(w) && Stranded(Later(w, after))
  {
    ms := VoidStart();
    ms := VoidRun(OPENING, ms, MAX_DATA_UPDATE_COUNT);
    VoidIsStranded();
    StrandedForever(Alone(MAX_DATA_UPDATE_COUNT), after);
  }
}
