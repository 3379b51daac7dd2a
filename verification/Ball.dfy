/** The sync token ("ball"): which node publishes an application's data image
    (database/src/network.rs). `IPFSManager` is the state of one node, updated in place. */
module Ball {
  import opened Options
  import opened Text

  const MAX_DATA_UPDATE_COUNT: nat := 7
  /** Instants and durations are in nanoseconds. */
  const SECOND: nat := 1_000_000_000
  const SYNC_FREQUENCY: nat := 10 * SECOND
  const ADDITIONAL_WAIT_PERIOD: nat := 10 * SECOND
  const PATIENCE: nat := SYNC_FREQUENCY + ADDITIONAL_WAIT_PERIOD

  datatype Peer = Peer(peerId: Str, multiAddr: Str)

  /** One application's entries in the maps of `IPFSManager`. */
  datatype Node = Node(turn: Option<bool>, count: Option<nat>, syncPeers: Option<seq<Peer>>, lastSync: Option<nat>)

  predicate Holds(n: Node) { n.turn == Some(true) }

  function CountOf(n: Node): nat { n.count.UnwrapOr(0) }

  function PeersOf(n: Node): seq<Peer> { n.syncPeers.UnwrapOr([]) }

  /** `Instant` subtraction saturates at zero; a node that never heard a SYNC counts from now. */
  function Elapsed(now: nat, last: Option<nat>): nat {
    match last
    case Some(l) => if l <= now then now - l else 0
    case None => 0
  }

  // ---------------------------------------------------------------- what one node does

  /** A SYNC wins against a holder that has begun counting and has not got further. */
  predicate Yields(n: Node, count: nat) { Holds(n) && n.count.Some? && n.count.value <= count }

  function OnSync(n: Node, count: nat, peers: seq<Peer>, now: nat): Node {
    (if Yields(n, count) then n.(turn := Some(false), count := Some(0)) else n)
      .(syncPeers := Some(peers), lastSync := Some(now))
  }

  predicate AtCap(n: Node) { CountOf(n) + 1 == MAX_DATA_UPDATE_COUNT }

  /** After sending its SYNC messages a node counts on, or hands the token over at the cap. */
  function OnSyncSent(n: Node, now: nat): Node {
    if AtCap(n) then n.(turn := Some(false), count := Some(0), lastSync := Some(now + 20 * SECOND))
    else n.(count := Some(CountOf(n) + 1))
  }

  function OnPoll(n: Node, subscribers: nat): Node {
    if subscribers == 1 && PeersOf(n) == [] then n.(turn := Some(true))
    else if n.turn.None? then n.(turn := Some(false))
    else n
  }

  /** Whether this poll queues a SYNC message carrying the current count. */
  predicate Announces(n: Node, subscribers: nat, peers: seq<Peer>) {
    !(subscribers == 1 && PeersOf(n) == []) && Holds(n) && peers != []
  }

  /** Delays of the take-over timers for every position of `me` in the list. */
  function TimersFrom(peers: seq<Peer>, me: Str, k: nat): seq<nat>
    requires k <= |peers|
  {
    if k == 0 then []
    else TimersFrom(peers, me, k - 1) + if peers[k - 1].peerId == me then [k * 10 * SECOND] else []
  }

  function Timers(n: Node, me: Str, now: nat): seq<nat> {
    if Elapsed(now, n.lastSync) > PATIENCE then TimersFrom(PeersOf(n), me, |PeersOf(n)|) else []
  }

  function OnTimer(n: Node, delay: nat, now: nat): Node {
    if Elapsed(now, n.lastSync) > PATIENCE + delay then n.(turn := Some(true)) else n
  }

  /** Three minutes after subscribing, a node that heard nobody takes the token. */
  function OnSeize(n: Node, now: nat): Node {
    var quiet := match n.lastSync case Some(l) => l + 180 * SECOND < now case None => true;
    if !Holds(n) && quiet && PeersOf(n) == [] then n.(turn := Some(true)) else n
  }

  datatype SyncRpc = SyncRpc(dst: Peer, count: nat, peers: seq<Peer>)
  datatype GossipSync = GossipSync(count: nat, peers: seq<Peer>)

  class IPFSManager {
    const peerId: Str
    var isNodeSyncTurn: map<Str, bool>
    var dataUpdateCount: map<Str, nat>
    var syncPeers: map<Str, seq<Peer>>
    var lastSyncTime: map<Str, nat>

    constructor (peerId: Str)
      ensures this.peerId == peerId && forall did :: View(did) == Node(None, None, None, None)
    {
      this.peerId := peerId;
      isNodeSyncTurn, dataUpdateCount, syncPeers, lastSyncTime := map[], map[], map[], map[];
    }

    function View(did: Str): Node
      reads this
    {
      Node(if did in isNodeSyncTurn then Some(isNodeSyncTurn[did]) else None,
           if did in dataUpdateCount then Some(dataUpdateCount[did]) else None,
           if did in syncPeers then Some(syncPeers[did]) else None,
           if did in lastSyncTime then Some(lastSyncTime[did]) else None)
    }

    /** SYNC received. */
    method HandleSync(topic: Str, updateCount: nat, peers: seq<Peer>, now: nat)
      modifies this
      ensures View(topic) == OnSync(old(View(topic)), updateCount, peers, now)
      ensures forall other :: other != topic ==> View(other) == old(View(other))
    {
      var syncing := topic in isNodeSyncTurn && isNodeSyncTurn[topic];
      if syncing {
        if topic in dataUpdateCount {
          if dataUpdateCount[topic] <= updateCount {
            dataUpdateCount := dataUpdateCount[topic := 0];
            isNodeSyncTurn := isNodeSyncTurn[topic := false];
          }
        }
      }
      syncPeers := syncPeers[topic := peers];
      lastSyncTime := lastSyncTime[topic := now];
    }

    /** A queued GossipSyncMsg is taken from the channel. */
    method HandleGossipSyncMsg(updateCount: nat, did: Str, peers: seq<Peer>, now: nat) returns (sent: seq<SyncRpc>)
      modifies this
      ensures sent == seq(|peers|, i requires 0 <= i < |peers| => SyncRpc(peers[i], updateCount, peers))
      ensures View(did) == OnSyncSent(old(View(did)), now)
      ensures forall other :: other != did ==> View(other) == old(View(other))
    {
      sent := [];
      for k := 0 to |peers|
        invariant sent == seq(k, i requires 0 <= i < k => SyncRpc(peers[i], updateCount, peers))
      {
        sent := sent + [SyncRpc(peers[k], updateCount, peers)];
      }
      var count := if did in dataUpdateCount then dataUpdateCount[did] else 0;
      if count != 0 {
        if count + 1 == MAX_DATA_UPDATE_COUNT {
          dataUpdateCount := dataUpdateCount[did := 0];
          isNodeSyncTurn := isNodeSyncTurn[did := false];
          lastSyncTime := lastSyncTime[did := now + 20 * SECOND];
        } else {
          dataUpdateCount := dataUpdateCount[did := count + 1];
        }
      } else {
        dataUpdateCount := dataUpdateCount[did := count + 1];
      }
    }

    /** Dispatches one timer per position of this node in the last SYNC's peer list. */
    method MonitorSynching(did: Str, now: nat) returns (timers: seq<nat>)
      ensures timers == Timers(View(did), peerId, now)
    {
      timers := [];
      var lastSync := if did in lastSyncTime then lastSyncTime[did] else now;
      if (if lastSync <= now then now - lastSync else 0) > SYNC_FREQUENCY + ADDITIONAL_WAIT_PERIOD {
        var peers := if did in syncPeers then syncPeers[did] else [];
        for i := 0 to |peers|
          invariant timers == TimersFrom(peers, peerId, i)
        {
          var takeOverTime := (i + 1) * 10 * SECOND;
          if peers[i].peerId == peerId {
            timers := timers + [takeOverTime];
          }
        }
      }
    }

    /** One round of the synchronization loop; `subscribers` is the size of the parsed contract list. */
    method ManageDataSynchronization(did: Str, subscribers: nat, fmPeers: seq<Peer>, now: nat)
      returns (queued: Option<GossipSync>, timers: seq<nat>)
      modifies this
      ensures View(did) == OnPoll(old(View(did)), subscribers)
      ensures forall other :: other != did ==> View(other) == old(View(other))
      ensures queued == if Announces(old(View(did)), subscribers, fmPeers)
                        then Some(GossipSync(CountOf(old(View(did))), fmPeers)) else None
      ensures timers == if Holds(old(View(did))) || Holds(View(did)) then [] else Timers(View(did), peerId, now)
    {
      queued, timers := None, [];
      var known := if did in syncPeers then syncPeers[did] else [];
      if subscribers == 1 && |known| == 0 {
        isNodeSyncTurn := isNodeSyncTurn[did := true];
      } else if did in isNodeSyncTurn {
        if isNodeSyncTurn[did] {
          if |fmPeers| > 0 {
            queued := Some(GossipSync(if did in dataUpdateCount then dataUpdateCount[did] else 0, fmPeers));
          }
        } else {
          timers := MonitorSynching(did, now);
        }
      } else {
        isNodeSyncTurn := isNodeSyncTurn[did := false];
        timers := MonitorSynching(did, now);
      }
    }

    /** A take-over timer wakes up. */
    method FireTimer(did: Str, takeOverTime: nat, now: nat)
      modifies this
      ensures View(did) == OnTimer(old(View(did)), takeOverTime, now)
      ensures forall other :: other != did ==> View(other) == old(View(other))
    {
      var lastSync := if did in lastSyncTime then lastSyncTime[did] else now;
      if (if lastSync <= now then now - lastSync else 0) > SYNC_FREQUENCY + ADDITIONAL_WAIT_PERIOD + takeOverTime {
        isNodeSyncTurn := isNodeSyncTurn[did := true];
      }
    }

    method SeizePower(did: Str, now: nat)
      modifies this
      ensures View(did) == OnSeize(old(View(did)), now)
      ensures forall other :: other != did ==> View(other) == old(View(other))
    {
      var nodeTurn := did in isNodeSyncTurn && isNodeSyncTurn[did];
      var quiet := did !in lastSyncTime || lastSyncTime[did] + 180 * SECOND < now;
      var peers := if did in syncPeers then syncPeers[did] else [];
      if !nodeTurn && quiet && |peers| == 0 {
        isNodeSyncTurn := isNodeSyncTurn[did := true];
      }
    }
  }

  // ---------------------------------------------------------------- one term

  datatype TermEvent = Publish(now: nat) | Hear(count: nat, peers: seq<Peer>, now: nat)
  datatype Term = Term(node: Node, published: seq<nat>)

  /** Queueing and handling merged: a holder publishes its count and counts on. */
  function TermRun(n: Node, es: seq<TermEvent>): Term {
    if es == [] then Term(n, [])
    else
      var t := TermRun(n, es[..|es| - 1]);
      match es[|es| - 1]
      case Publish(now) => Term(OnSyncSent(t.node, now), t.published + [CountOf(t.node)])
      case Hear(count, peers, now) => Term(OnSync(t.node, count, peers, now), t.published)
  }

  /** Only a holder publishes, and no SYNC heard makes it yield. */
  predicate Undisturbed(n: Node, es: seq<TermEvent>) {
    es == [] ||
    (Undisturbed(n, es[..|es| - 1]) &&
     var t := TermRun(n, es[..|es| - 1]);
     match es[|es| - 1]
     case Publish(_) => Holds(t.node)
     case Hear(count, _, _) => !Yields(t.node, count))
  }

  /** An undisturbed term publishes 0, 1, 2, ... and ends with the seventh SYNC step. */
  lemma {:induction false} TermLaw(n: Node, es: seq<TermEvent>)
    requires Holds(n) && CountOf(n) == 0 && Undisturbed(n, es)
    ensures var t := TermRun(n, es);
            && t.published == seq(|t.published|, i => i)
            && |t.published| <= MAX_DATA_UPDATE_COUNT
            && (Holds(t.node) <==> |t.published| < MAX_DATA_UPDATE_COUNT)
            && (Holds(t.node) ==> CountOf(t.node) == |t.published|)
  {
    if es == [] {
    } else {
      TermLaw(n, es[..|es| - 1]);
    }
  }

  // ---------------------------------------------------------------- the network of nodes

  /** A GossipSyncMsg waiting in a node's own channel: the count when it was queued, and whom it is for. */
  datatype Pending = Pending(count: nat, targets: seq<nat>, peers: seq<Peer>)
  datatype Packet = Packet(dst: nat, count: nat, peers: seq<Peer>)
  datatype System = System(nodes: seq<Node>, queues: seq<seq<Pending>>, wire: multiset<Packet>)

  datatype Event =
    | Poll(i: nat, subscribers: nat, targets: seq<nat>, peers: seq<Peer>)
    | Send(i: nat, now: nat)
    | Deliver(p: Packet, now: nat)
    | Lose(p: Packet)
    | Timer(i: nat, delay: nat, now: nat)
    | Seize(i: nat, now: nat)

  predicate Enabled(s: System, e: Event) {
    && |s.queues| == |s.nodes|
    && match e
       case Poll(i, _, targets, peers) =>
         i < |s.nodes| && |peers| == |targets| && forall k :: 0 <= k < |targets| ==> targets[k] < |s.nodes|
       case Send(i, _) => i < |s.nodes| && s.queues[i] != []
       case Deliver(p, _) => p in s.wire && p.dst < |s.nodes|
       case Lose(p) => p in s.wire
       case Timer(i, _, _) => i < |s.nodes|
       case Seize(i, _) => i < |s.nodes|
  }

  function Packets(m: Pending): seq<Packet> {
    seq(|m.targets|, k requires 0 <= k < |m.targets| => Packet(m.targets[k], m.count, m.peers))
  }

  function After(s: System, e: Event): System
    requires Enabled(s, e)
  {
    match e
    case Poll(i, subscribers, targets, peers) =>
      var n := s.nodes[i];
      s.(nodes := s.nodes[i := OnPoll(n, subscribers)],
         queues := if Announces(n, subscribers, peers) then s.queues[i := s.queues[i] + [Pending(CountOf(n), targets, peers)]] else s.queues)
    case Send(i, now) =>
      System(s.nodes[i := OnSyncSent(s.nodes[i], now)], s.queues[i := s.queues[i][1..]], s.wire + multiset(Packets(s.queues[i][0])))
    case Deliver(p, now) =>
      s.(nodes := s.nodes[p.dst := OnSync(s.nodes[p.dst], p.count, p.peers, now)], wire := s.wire - multiset{p})
    case Lose(p) => s.(wire := s.wire - multiset{p})
    case Timer(i, delay, now) => s.(nodes := s.nodes[i := OnTimer(s.nodes[i], delay, now)])
    case Seize(i, now) => s.(nodes := s.nodes[i := OnSeize(s.nodes[i], now)])
  }

  /** `es` is a run from `s`. */
  predicate Legal(s: System, es: seq<Event>)
    decreases |es|, 0
  {
    es == [] || (Legal(s, es[..|es| - 1]) && Enabled(Exec(s, es[..|es| - 1]), es[|es| - 1]))
  }

  function Exec(s: System, es: seq<Event>): System
    requires Legal(s, es)
    decreases |es|, 1
  {
    if es == [] then s else After(Exec(s, es[..|es| - 1]), es[|es| - 1])
  }

  lemma RunAppend(s: System, es: seq<Event>, e: Event)
    requires Legal(s, es) && Enabled(Exec(s, es), e)
    ensures Legal(s, es + [e]) && Exec(s, es + [e]) == After(Exec(s, es), e)
  {
    assert (es + [e])[..|es|] == es;
  }

  predicate HoldsAt(s: System, i: nat) { i < |s.nodes| && Holds(s.nodes[i]) }

  ghost predicate Held(s: System) { exists i: nat :: HoldsAt(s, i) }

  /** A holder reaches the cap and passes the token on. */
  predicate HandOver(s: System, e: Event)
    requires Enabled(s, e)
  {
    e.Send? && Holds(s.nodes[e.i]) && AtCap(s.nodes[e.i])
  }

  ghost predicate NoHandOver(s: System, es: seq<Event>)
    requires Legal(s, es)
  {
    es == [] || (NoHandOver(s, es[..|es| - 1]) && !HandOver(Exec(s, es[..|es| - 1]), es[|es| - 1]))
  }

  /** Somebody holds the token and nothing is on its way. */
  ghost predicate Quiet(s: System) {
    && |s.queues| == |s.nodes| && Held(s) && s.wire == multiset{}
    && forall i :: 0 <= i < |s.queues| ==> s.queues[i] == []
  }

  /** Holder `m` is ahead of every SYNC on the wire, and of every queued one whose own sender is not
      still a holder that has got at least as far. */
  ghost predicate Leads(s: System, m: nat) {
    && |s.queues| == |s.nodes| && HoldsAt(s, m)
    && (forall p :: p in s.wire ==> p.count < CountOf(s.nodes[m]))
    && (forall i, k :: 0 <= i < |s.queues| && 0 <= k < |s.queues[i]| ==>
          s.queues[i][k].count < CountOf(s.nodes[m]) || (Holds(s.nodes[i]) && s.queues[i][k].count <= CountOf(s.nodes[i])))
  }

  lemma PollKeepsLead(s: System, e: Event, m: nat)
    requires Leads(s, m) && Enabled(s, e) && e.Poll?
    ensures Leads(After(s, e), m)
  {
  }

  lemma DeliverKeepsLead(s: System, e: Event, m: nat)
    requires Leads(s, m) && Enabled(s, e) && e.Deliver?
    ensures Leads(After(s, e), m)
  {
  }

  lemma SendKeepsLead(s: System, e: Event, m: nat) returns (m': nat)
    requires Leads(s, m) && Enabled(s, e) && e.Send? && !HandOver(s, e)
    ensures Leads(After(s, e), m')
  {
    var i := e.i;
    var head := s.queues[i][0];
    var s' := After(s, e);
    m' := if head.count < CountOf(s.nodes[m]) then m else i;
    forall p | p in s'.wire ensures p.count < CountOf(s'.nodes[m']) {
      if p !in s.wire {
        assert p in Packets(head);
      }
    }
    forall j, k | 0 <= j < |s'.queues| && 0 <= k < |s'.queues[j]|
      ensures s'.queues[j][k].count < CountOf(s'.nodes[m']) || (Holds(s'.nodes[j]) && s'.queues[j][k].count <= CountOf(s'.nodes[j]))
    {
      assert s'.queues[j][k] == if j == i then s.queues[i][k + 1] else s.queues[j][k];
    }
  }

  lemma StepKeepsLead(s: System, e: Event, m: nat) returns (m': nat)
    requires Leads(s, m) && Enabled(s, e) && !HandOver(s, e)
    ensures Leads(After(s, e), m')
  {
    m' := m;
    match e
    case Poll(_, _, _, _) => PollKeepsLead(s, e, m);
    case Deliver(_, _) => DeliverKeepsLead(s, e, m);
    case Send(_, _) => m' := SendKeepsLead(s, e, m);
    case _ =>
  }

  lemma {:induction false} RunKeepsLead(s: System, es: seq<Event>, m: nat) returns (m': nat)
    requires Leads(s, m) && Legal(s, es) && NoHandOver(s, es)
    ensures Leads(Exec(s, es), m')
  {
    m' := m;
    if es == [] {
    } else {
      m' := RunKeepsLead(s, es[..|es| - 1], m);
      m' := StepKeepsLead(Exec(s, es[..|es| - 1]), es[|es| - 1], m');
    }
  }

  /** Conflict resolution never loses the token: until the first hand-over some node holds it,
      whatever the interleaving of polls, sends, deliveries, losses and take-overs. */
  lemma TokenSurvives(s: System, es: seq<Event>)
    requires Quiet(s) && Legal(s, es) && NoHandOver(s, es)
    ensures Held(Exec(s, es))
  {
    var m: nat :| HoldsAt(s, m);
    var m' := RunKeepsLead(s, es, m);
  }

  // ---------------------------------------------------------------- when the token is lost

  /** One step leaves nobody with the token exactly when it takes it from the only holder: by a
      hand-over at the cap, or by a SYNC that is at least as far. */
  lemma StepLosesExactly(s: System, e: Event, h: nat)
    requires Enabled(s, e) && HoldsAt(s, h)
    ensures !Held(After(s, e)) <==>
            && (forall j :: HoldsAt(s, j) ==> j == h)
            && (|| (e.Send? && e.i == h && CountOf(s.nodes[h]) + 1 == MAX_DATA_UPDATE_COUNT)
                || (e.Deliver? && e.p.dst == h && s.nodes[h].count.Some? && s.nodes[h].count.value <= e.p.count))
  {
    var s' := After(s, e);
    var touched := if e.Deliver? then e.p.dst else if e.Lose? then |s.nodes| else e.i;
    assert forall j: nat :: j != touched ==> (HoldsAt(s', j) <==> HoldsAt(s, j));
    if HoldsAt(s, touched) {
      assert HoldsAt(s', touched) <==> !(HandOver(s, e) || (e.Deliver? && Yields(s.nodes[touched], e.p.count)));
    }
    if touched != h {
      assert HoldsAt(s', h);
    }
  }

  // ---------------------------------------------------------------- conflict resolution

  /** A holder that has counted to `c` keeps the token at a SYNC exactly when it is ahead of it, and
      otherwise starts again from 0; a holder that has not counted, or no holder, is left as it is. In any
      case the list and the time are recorded, and no other node changes. */
  lemma SyncDecides(s: System, p: Packet, now: nat)
    requires Enabled(s, Deliver(p, now))
    ensures var n, n' := s.nodes[p.dst], After(s, Deliver(p, now)).nodes[p.dst];
            && n'.syncPeers == Some(p.peers) && n'.lastSync == Some(now)
            && (n.turn == Some(true) && n.count.Some? ==> (n'.turn == Some(true) <==> p.count < n.count.value))
            && (if n.turn == Some(true) && n'.turn != Some(true) then n'.turn == Some(false) && n'.count == Some(0)
                else n'.turn == n.turn && n'.count == n.count)
    ensures forall i :: 0 <= i < |s.nodes| && i != p.dst ==> After(s, Deliver(p, now)).nodes[i] == s.nodes[i]
  {
  }

  ghost predicate AllDeliver(es: seq<Event>) { forall k :: 0 <= k < |es| ==> es[k].Deliver? }

  /** Some SYNC for node `i` has got at least as far as `c`. */
  ghost predicate Outdone(es: seq<Event>, i: nat, c: nat) {
    exists k :: 0 <= k < |es| && es[k].Deliver? && es[k].p.dst == i && es[k].p.count >= c
  }

  lemma OutdoneSteps(es: seq<Event>, i: nat, c: nat)
    requires es != []
    ensures var e := es[|es| - 1];
            Outdone(es, i, c) <==> Outdone(es[..|es| - 1], i, c) || (e.Deliver? && e.p.dst == i && e.p.count >= c)
  {
    var n := |es| - 1;
    assert forall k :: 0 <= k < n ==> es[k] == es[..n][k];
  }

  /** Of the SYNCs that reach a holder which has counted to `c`, in any order, exactly those that have got
      at least as far take the token from it. */
  lemma {:induction false} DeliveriesDecide(s: System, es: seq<Event>, i: nat, c: nat)
    requires Legal(s, es) && AllDeliver(es) && HoldsAt(s, i) && s.nodes[i].count == Some(c)
    ensures var t := Exec(s, es);
            && i < |t.nodes|
            && t.nodes[i].turn == Some(!Outdone(es, i, c))
            && t.nodes[i].count == Some(if Outdone(es, i, c) then 0 else c)
  {
    if es == [] {
    } else {
      var front, e := es[..|es| - 1], es[|es| - 1];
      DeliveriesDecide(s, front, i, c);
      DeliveryStep(Exec(s, front), e, i, c, Outdone(front, i, c));
      OutdoneSteps(es, i, c);
    }
  }

  lemma DeliveryStep(t: System, e: Event, i: nat, c: nat, outdone: bool)
    requires Enabled(t, e) && e.Deliver? && i < |t.nodes|
    requires t.nodes[i].turn == Some(!outdone) && t.nodes[i].count == Some(if outdone then 0 else c)
    ensures var t', after := After(t, e), outdone || (e.p.dst == i && e.p.count >= c);
            && |t'.nodes| == |t.nodes|
            && t'.nodes[i].turn == Some(!after) && t'.nodes[i].count == Some(if after then 0 else c)
  {
    SyncDecides(t, e.p, e.now);
  }

  lemma {:induction false} DeliveriesCreateNone(s: System, es: seq<Event>, i: nat)
    requires Legal(s, es) && AllDeliver(es) && !HoldsAt(s, i)
    ensures |Exec(s, es).nodes| == |s.nodes| && !HoldsAt(Exec(s, es), i)
  {
    if es == [] {
    } else {
      var front, e := es[..|es| - 1], es[|es| - 1];
      DeliveriesCreateNone(s, front, i);
      SyncDecides(Exec(s, front), e.p, e.now);
    }
  }

  /** Among any number of holders that have all counted, once each of the others has heard a SYNC that has
      got at least as far as itself, and the leader none that has got as far as it, only the leader holds. */
  lemma LeaderRemains(s: System, es: seq<Event>, leader: nat, i: nat)
    requires Legal(s, es) && AllDeliver(es) && HoldsAt(s, leader)
    requires forall j: nat :: HoldsAt(s, j) ==> s.nodes[j].count.Some?
    requires forall j: nat :: HoldsAt(s, j) ==> (Outdone(es, j, s.nodes[j].count.value) <==> j != leader)
    ensures HoldsAt(Exec(s, es), i) <==> i == leader
  {
    if HoldsAt(s, i) {
      DeliveriesDecide(s, es, i, s.nodes[i].count.value);
    } else {
      DeliveriesCreateNone(s, es, i);
    }
  }

  // ---------------------------------------------------------------- polls, sends, timers and seizures

  /** A holder with somebody to tell queues a SYNC with its count at its next poll, unless it is alone: sole
      subscriber and never told of anyone. Nobody else queues anything, and a poll only ever gives the token
      to who is alone. */
  lemma PollDecides(s: System, i: nat, subscribers: nat, targets: seq<nat>, peers: seq<Peer>)
    requires Enabled(s, Poll(i, subscribers, targets, peers))
    ensures var n, s' := s.nodes[i], After(s, Poll(i, subscribers, targets, peers));
            var alone := subscribers == 1 && (n.syncPeers.None? || n.syncPeers.value == []);
            && s'.queues[i] == s.queues[i] + (if n.turn == Some(true) && peers != [] && !alone
                                              then [Pending(if n.count.Some? then n.count.value else 0, targets, peers)] else [])
            && (s'.nodes[i].turn == Some(true) <==> n.turn == Some(true) || alone)
            && s'.nodes[i] == n.(turn := s'.nodes[i].turn) && s'.wire == s.wire
            && forall j :: 0 <= j < |s.nodes| && j != i ==> s'.nodes[j] == s.nodes[j] && s'.queues[j] == s.queues[j]
  {
  }

  /** Below the cap a send only counts on, whoever sends: the token, the list and the time stay. */
  lemma SendDecides(s: System, i: nat, now: nat)
    requires Enabled(s, Send(i, now))
    ensures var n, n' := s.nodes[i], After(s, Send(i, now)).nodes[i];
            var c := if n.count.Some? then n.count.value else 0;
            if c == 6 then n' == Node(Some(false), Some(0), n.syncPeers, Some(now + 20 * SECOND))
            else n' == Node(n.turn, Some(c + 1), n.syncPeers, n.lastSync)
    ensures forall p :: After(s, Send(i, now)).wire[p] ==
                        s.wire[p] + multiset(Packets(s.queues[i][0]))[p]
  {
  }

  /** Three minutes after subscribing a node that holds nothing takes the token exactly when it was never told
      of anyone and the last SYNC, if it ever heard one, is more than three minutes old; nothing else changes. */
  lemma SeizureDecides(s: System, i: nat, now: nat)
    requires Enabled(s, Seize(i, now)) && !HoldsAt(s, i)
    ensures var n, s' := s.nodes[i], After(s, Seize(i, now));
            && (HoldsAt(s', i) <==> (n.syncPeers == None || n.syncPeers == Some([])) &&
                                    (n.lastSync.Some? ==> n.lastSync.value + 180 * SECOND < now))
            && s' == s.(nodes := s.nodes[i := n.(turn := if HoldsAt(s', i) then Some(true) else n.turn)])
  {
  }

  /** So one that never heard a SYNC takes it, and one that did within the three minutes does not. */
  lemma WhoSeizes(s: System, i: nat, now: nat)
    requires Enabled(s, Seize(i, now)) && !HoldsAt(s, i)
    ensures s.nodes[i].syncPeers == None && s.nodes[i].lastSync == None ==> HoldsAt(After(s, Seize(i, now)), i)
    ensures s.nodes[i].lastSync.Some? && now <= s.nodes[i].lastSync.value + 180 * SECOND ==> !HoldsAt(After(s, Seize(i, now)), i)
  {
    SeizureDecides(s, i, now);
  }

  // ---------------------------------------------------------------- counts

  ghost predicate Bounded(s: System) {
    && (forall i :: 0 <= i < |s.nodes| ==> CountOf(s.nodes[i]) < MAX_DATA_UPDATE_COUNT)
    && (forall i, k :: 0 <= i < |s.queues| && 0 <= k < |s.queues[i]| ==> s.queues[i][k].count < MAX_DATA_UPDATE_COUNT)
    && (forall p :: p in s.wire ==> p.count < MAX_DATA_UPDATE_COUNT)
  }

  lemma SendKeepsBound(s: System, e: Event)
    requires Bounded(s) && Enabled(s, e) && e.Send?
    ensures Bounded(After(s, e))
  {
    var s' := After(s, e);
    forall p | p in s'.wire ensures p.count < MAX_DATA_UPDATE_COUNT {
      if p !in s.wire {
        assert p in Packets(s.queues[e.i][0]);
      }
    }
    assert forall k :: 0 <= k < |s'.queues[e.i]| ==> s'.queues[e.i][k] == s.queues[e.i][k + 1];
  }

  lemma PollKeepsBound(s: System, e: Event)
    requires Bounded(s) && Enabled(s, e) && e.Poll?
    ensures Bounded(After(s, e))
  {
  }

  lemma StepKeepsBound(s: System, e: Event)
    requires Bounded(s) && Enabled(s, e)
    ensures Bounded(After(s, e))
  {
    match e
    case Send(_, _) => SendKeepsBound(s, e);
    case Poll(_, _, _, _) => PollKeepsBound(s, e);
    case _ =>
  }

  /** Counts stay in 0..6 on every node, in every queue and on the wire. */
  lemma {:induction false} CountsStayBounded(s: System, es: seq<Event>)
    requires Bounded(s) && Legal(s, es)
    ensures Bounded(Exec(s, es))
  {
    if es == [] {
    } else {
      CountsStayBounded(s, es[..|es| - 1]);
      StepKeepsBound(Exec(s, es[..|es| - 1]), es[|es| - 1]);
    }
  }

  /** A SYNC that carries 6, as the one of an undisturbed term's hand-over does, takes the token from every
      receiver except a holder that never counted. */
  lemma TopCountClears(s: System, es: seq<Event>, p: Packet, now: nat)
    requires Bounded(s) && Legal(s, es) && Enabled(Exec(s, es), Deliver(p, now))
    requires p.count == MAX_DATA_UPDATE_COUNT - 1
    ensures var t := Exec(s, es);
            Holds(After(t, Deliver(p, now)).nodes[p.dst]) <==> Holds(t.nodes[p.dst]) && t.nodes[p.dst].count.None?
  {
    CountsStayBounded(s, es);
    assert CountOf(Exec(s, es).nodes[p.dst]) < MAX_DATA_UPDATE_COUNT;
  }
}
