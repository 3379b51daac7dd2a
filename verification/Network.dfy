/** One node's handling of gossiped and pulled messages: the window, the codec and the replica put
    together (the gossip and IGIVE arms of `run` in database/src/network.rs). Of configuration and
    subscription messages only the fields they index and what they advertise is modelled. */
module Network {
  import opened Options
  import opened Text
  import opened Store
  import opened GossipCodec
  import opened Convergence
  import opened Window

  /** A gossiped message as the swarm delivers it, and the clock of the receiver; `dialable` tells
      whether its third field, if any, parses as a multi-address. */
  datatype Input = Input(source: Str, id: Str, data: Str, now: nat, dialable: bool)

  /** `done` lists the events applied, in step with the processing log. */
  datatype Replica = Replica(apps: Applications, log: seq<Message>, done: seq<Delivery>)

  function FieldsOf(data: Str): (f: seq<Str>)
    ensures f != []
  {
    Split(FromUtf8(data), SEPARATOR)
  }

  /** The handler's own conditions, in its order: a data message, for a hosted application, not from
      this node, not in the window. */
  predicate Due(apps: Applications, log: seq<Message>, local: Str, m: Input) {
    var f := FieldsOf(m.data);
    && |f| >= 2 && ParseUnsigned(f[0], U8_LIMIT) == Some(DATA)
    && f[1] in apps && m.source != local && m.id !in WindowOf(log)
  }

  /** A configuration message that sets a pinning server, which is passed on. */
  predicate Relays(m: Input) {
    var f := FieldsOf(m.data);
    |f| >= 9 && ParseUnsigned(f[0], U8_LIMIT) == Some(CONFIG) && ParseOrZero(f[8], U8_LIMIT) == 0
  }

  /** A subscription message without an address, or with a valid one and no peer behind it. */
  predicate LacksPeer(m: Input) {
    |FieldsOf(m.data)| < 3 || (m.dialable && |FieldsOf(m.data)| < 4)
  }

  /** Indexing a missing field, or an event of unknown kind, ends the event loop. */
  predicate Crashes(apps: Applications, log: seq<Message>, local: Str, m: Input) {
    var f := FieldsOf(m.data);
    |f| < 2 ||
    match ParseUnsigned(f[0], U8_LIMIT)
    case Some(code) =>
      if code == DATA then
        if f[1] in apps then Due(apps, log, local, m) && (|f| < 9 || KindOf(f[8]) == Unknown) else |f| < 7
      else if code == CONFIG then |f| < 9
      else if code == SUBSCRIBE then (f[1] in apps ==> m.source != local) && LacksPeer(m)
      else code == UNSUBSCRIBE && f[1] in apps && m.source != local && LacksPeer(m)
    case None => false
  }

  function EventIn(m: Input): GossipEvent
    requires |FieldsOf(m.data)| >= 9
  {
    var f := FieldsOf(m.data);
    Receive(f[1], f[2], f[3], f[4], f[5], f[8])
  }

  function OnGossip(r: Replica, local: Str, m: Input): Replica
    requires !Crashes(r.apps, r.log, local, m)
  {
    if !Due(r.apps, r.log, local, m) then r
    else
      var ev := EventIn(m);
      Replica(Apply(r.apps, ev, m.now), Process(r.log, Message(ev.did, m.id, m.data)), r.done + [Delivery(ev, m.now)])
  }

  /** What pulled messages say, and what handling them in order does. */
  function Readings(messages: seq<Str>): (rs: seq<Reading>)
    ensures |rs| == |messages| && forall i :: 0 <= i < |rs| ==> rs[i] == Read(messages[i], true)
  {
    if messages == [] then []
    else Readings(messages[..|messages| - 1]) + [Read(messages[|messages| - 1], true)]
  }

  predicate EndsLoop(r: Reading) { r == Malformed || (r.Data? && r.ev.kind == Unknown) }

  ghost predicate SomeEndsLoop(rs: seq<Reading>) { exists i :: 0 <= i < |rs| && EndsLoop(rs[i]) }

  function PullStep(apps: Applications, r: Reading, now: nat): Applications {
    match r
    case Data(ev) => Apply(apps, ev, now)
    case _ => apps
  }

  function OnPulled(apps: Applications, rs: seq<Reading>, now: nat): Applications {
    if rs == [] then apps else PullStep(OnPulled(apps, rs[..|rs| - 1], now), rs[|rs| - 1], now)
  }

  class NetworkClient {
    const local: Str
    const db: DBState
    const rpc: RpcManager
    ghost var done: seq<Delivery>

    ghost predicate Valid()
      reads this, db, rpc, rpc.seen, rpc.cache
    {
      rpc.Valid()
    }

    ghost function View(): Replica
      reads this, db, rpc
    {
      Replica(db.applications, rpc.log, done)
    }

    constructor (local: Str, db: DBState)
      ensures this.local == local && this.db == db && Valid()
      ensures View() == Replica(db.applications, [], [])
    {
      this.local, this.db := local, db;
      rpc := new RpcManager();
      done := [];
    }

    method HandleGossip(m: Input, metadata: bool, k: nat) returns (crashed: bool, ihave: Option<seq<Str>>)
      requires Valid()
      modifies this, db, rpc, rpc.seen, rpc.cache
      ensures crashed <==> Crashes(old(db.applications), old(rpc.log), local, m)
      ensures !crashed ==> Valid() && View() == OnGossip(old(View()), local, m)
      ensures !crashed ==>
                ihave == if metadata && (Due(old(db.applications), old(rpc.log), local, m) || Relays(m))
                         then Some([m.id] + Advertised(rpc.log, FieldsOf(m.data)[1], k)) else None
    {
      crashed, ihave := false, None;
      var msgData := FieldsOf(m.data);
      if |msgData| < 2 {
        return true, None;
      }
      var did := msgData[1];
      match ParseUnsigned(msgData[0], U8_LIMIT) {
        case Some(code) =>
          if code == DATA {
            crashed, ihave := HandleDataMessage(m, msgData, metadata, k);
          } else if code == CONFIG {
            if |msgData| < 9 {
              return true, None;
            }
            if ParseOrZero(msgData[8], U8_LIMIT) == 0 {
              ihave := rpc.Advertise(did, m.id, metadata, k);
            }
          } else if code == SUBSCRIBE {
            if did in db.applications {
              crashed := m.source != local && LacksPeer(m);
            } else {
              crashed := LacksPeer(m);
            }
          } else if code == UNSUBSCRIBE {
            if did in db.applications {
              crashed := m.source != local && LacksPeer(m);
            }
          }
        case None =>
      }
    }

    method HandleDataMessage(m: Input, msgData: seq<Str>, metadata: bool, k: nat)
      returns (crashed: bool, ihave: Option<seq<Str>>)
      requires Valid()
      requires msgData == FieldsOf(m.data) && |msgData| >= 2 && ParseUnsigned(msgData[0], U8_LIMIT) == Some(DATA)
      modifies this, db, rpc, rpc.seen, rpc.cache
      ensures crashed <==> Crashes(old(db.applications), old(rpc.log), local, m)
      ensures !crashed ==> Valid() && View() == OnGossip(old(View()), local, m)
      ensures !crashed ==>
                ihave == if metadata && Due(old(db.applications), old(rpc.log), local, m)
                         then Some([m.id] + Advertised(rpc.log, msgData[1], k)) else None
    {
      crashed, ihave := false, None;
      var did := msgData[1];
      if did in db.applications {
        if local != m.source {
          if !rpc.seen.Contains(m.id) {
            if |msgData| < 9 {
              return true, None;
            }
            crashed := db.HandleGossipedData(did, msgData[2], msgData[3], msgData[4], msgData[5], msgData[8], m.now);
            if crashed {
              return;
            }
            done := done + [Delivery(EventIn(m), m.now)];
            var processed;
            processed, ihave := rpc.HandleData(did, m.id, m.data, metadata, k);
          }
        }
      } else if |msgData| < 7 {
        return true, None;
      }
    }

    method HandlePulled(message: Str, now: nat) returns (crashed: bool)
      modifies db
      ensures crashed <==> EndsLoop(Read(message, true))
      ensures !crashed ==> db.applications == PullStep(old(db.applications), Read(message, true), now)
    {
      crashed := false;
      if Utf8(message) {
        var msgData := Split(message, SEPARATOR);
        if |msgData| < 2 {
          return true;
        }
        var code := ParseOrZero(msgData[0], U8_LIMIT);
        if code == DATA {
          if |msgData| < 9 {
            return true;
          }
          crashed := db.HandleGossipedData(msgData[1], msgData[2], msgData[3], msgData[4], msgData[5], msgData[8], now);
        } else if code == CONFIG {
          crashed := |msgData| < 9;
        }
      }
    }

    method HandleEach(messages: seq<Str>, ghost rs: seq<Reading>, now: nat) returns (crashed: bool)
      requires |rs| == |messages| && forall i :: 0 <= i < |rs| ==> rs[i] == Read(messages[i], true)
      modifies db
      ensures crashed <==> SomeEndsLoop(rs)
      ensures !crashed ==> db.applications == OnPulled(old(db.applications), rs, now)
    {
      crashed := false;
      for i := 0 to |messages|
        invariant forall j :: 0 <= j < i ==> !EndsLoop(rs[j])
        invariant db.applications == OnPulled(old(db.applications), rs[..i], now)
      {
        assert rs[..i + 1][..i] == rs[..i];
        crashed := HandlePulled(messages[i], now);
        if crashed {
          assert EndsLoop(rs[i]);
          return;
        }
      }
      assert rs[..|messages|] == rs;
    }

    /** IGIVE bypasses the window. */
    method HandleIGive(messages: seq<Str>, now: nat) returns (crashed: bool)
      modifies db
      ensures crashed <==> SomeEndsLoop(Readings(messages))
      ensures !crashed ==> db.applications == OnPulled(old(db.applications), Readings(messages), now)
    {
      crashed := HandleEach(messages, Readings(messages), now);
    }
  }

  // ---------------------------------------------------------------- whole runs

  predicate Survives(r: Replica, local: Str, ms: seq<Input>)
    decreases |ms|, 0
  {
    ms == [] ||
    (Survives(r, local, ms[..|ms| - 1]) &&
     var before := GossipRun(r, local, ms[..|ms| - 1]);
     !Crashes(before.apps, before.log, local, ms[|ms| - 1]))
  }

  function GossipRun(r: Replica, local: Str, ms: seq<Input>): Replica
    requires Survives(r, local, ms)
    decreases |ms|, 1
  {
    if ms == [] then r else OnGossip(GossipRun(r, local, ms[..|ms| - 1]), local, ms[|ms| - 1])
  }

  function Start(apps: Applications): Replica { Replica(apps, [], []) }

  ghost predicate Spaced(log: seq<Message>) {
    forall i, j :: 0 <= i < j < |log| && log[i].id == log[j].id ==> j - i - 1 >= MCACHE_LEN
  }

  lemma SpacedStep(log: seq<Message>, m: Message)
    requires Spaced(log)
    ensures Spaced(Process(log, m))
  {
    forall i | 0 <= i < |log| && log[i].id == m.id && m.id !in WindowOf(log) ensures |log| - i - 1 >= MCACHE_LEN {
      if |log| - i <= MCACHE_LEN {
        InWindow(log, i);
      }
    }
  }

  lemma DueIsRead(r: Replica, local: Str, m: Input)
    requires !Crashes(r.apps, r.log, local, m) && Due(r.apps, r.log, local, m)
    ensures Read(m.data, false) == Data(EventIn(m))
  {
  }

  ghost predicate InTune(apps: Applications, r: Replica) {
    && r.apps == Run(apps, r.done) && |r.done| == |r.log| && Spaced(r.log)
    && forall i :: 0 <= i < |r.log| ==> Read(r.log[i].data, false) == Data(r.done[i].ev)
  }

  lemma GossipKeepsTune(apps: Applications, r: Replica, local: Str, m: Input)
    requires InTune(apps, r) && !Crashes(r.apps, r.log, local, m)
    ensures InTune(apps, OnGossip(r, local, m))
  {
    if Due(r.apps, r.log, local, m) {
      var ev := EventIn(m);
      var d, entry := Delivery(ev, m.now), Message(ev.did, m.id, m.data);
      DueIsRead(r, local, m);
      SpacedStep(r.log, entry);
      RunAppend(apps, r.done, d);
      assert Process(r.log, entry) == r.log + [entry];
    }
  }

  lemma RunAppend(apps: Applications, ds: seq<Delivery>, d: Delivery)
    ensures Run(apps, ds + [d]) == Apply(Run(apps, ds), d.ev, d.now)
  {
    assert (ds + [d])[..|ds|] == ds;
  }

  /** Whatever arrives, a node's tables are those of a replica that handles exactly the logged
      messages' events in log order, and one id is never applied twice within 890 applications. So
      the laws about runs of events hold of runs of messages. */
  lemma {:induction false} GossipRunIsReplicaRun(apps: Applications, local: Str, ms: seq<Input>)
    requires Survives(Start(apps), local, ms)
    ensures InTune(apps, GossipRun(Start(apps), local, ms))
  {
    if ms == [] {
    } else {
      GossipRunIsReplicaRun(apps, local, ms[..|ms| - 1]);
      GossipKeepsTune(apps, GossipRun(Start(apps), local, ms[..|ms| - 1]), local, ms[|ms| - 1]);
    }
  }

  ghost predicate Formats(message: Str, ev: GossipEvent) {
    exists addr, peer :: message == Format(ev, addr, peer) && AllPlain(ev, addr, peer) && AllText(ev, addr, peer) && ev.time < U64_LIMIT
  }

  lemma FormatsArrive(message: Str, ev: GossipEvent)
    requires Formats(message, ev)
    ensures Read(message, true) == Data(ev)
    ensures var f := FieldsOf(message);
            && |f| == 9 && f[1] == ev.did && ParseUnsigned(f[0], U8_LIMIT) == Some(DATA) && KindOf(f[8]) == ev.kind
            && Receive(f[1], f[2], f[3], f[4], f[5], f[8]) == ev
  {
    var addr, peer :| message == Format(ev, addr, peer) && AllPlain(ev, addr, peer) && AllText(ev, addr, peer);
    FieldsArrive(ev, addr, peer);
    ReadOfFormat(ev, addr, peer, true);
  }

  /** A data message that another node formatted never ends the event loop. Its event is applied, logged and
      listed exactly when the application is hosted, the message is not this node's own and its id is not
      among the last 890 processed; otherwise nothing happens. */
  lemma FormattedIsSafe(r: Replica, local: Str, m: Input, ev: GossipEvent)
    requires Formats(m.data, ev) && ev.kind != Unknown
    ensures !Crashes(r.apps, r.log, local, m)
    ensures OnGossip(r, local, m) ==
            if ev.did in r.apps && m.source != local && !Recent(r.log, m.id)
            then Replica(Apply(r.apps, ev, m.now), r.log + [Message(ev.did, m.id, m.data)], r.done + [Delivery(ev, m.now)])
            else r
  {
    FormatsArrive(m.data, ev);
    RecentExactly(r.log, m.id);
  }

  /** Among the last 890 processed. */
  ghost predicate Recent(log: seq<Message>, id: Str) { exists i :: 0 <= i < |log| && |log| - i <= 890 && log[i].id == id }

  lemma RecentExactly(log: seq<Message>, id: Str)
    ensures id in WindowOf(log) <==> Recent(log, id)
  {
    var w := WindowOf(log);
    if id in w {
      var k :| 0 <= k < |w| && w[k] == id;
      assert log[|log| - |w| + k].id == id;
    }
    if i :| 0 <= i < |log| && |log| - i <= 890 && log[i].id == id {
      InWindow(log, i);
    }
  }

  /** A subscription message with these fields lacks its address, or has a valid one and no peer behind it. */
  ghost predicate TooShort(f: seq<Str>, m: Input) { |f| < 3 || (m.dialable && |f| < 4) }

  // By the four codes as truth values.
  lemma EndsByCode(apps: Applications, log: seq<Message>, local: Str, m: Input, data: bool, config: bool, subscribe: bool, unsubscribe: bool)
    requires var f := FieldsOf(m.data); var code := ParseUnsigned(f[0], U8_LIMIT);
             && (data <==> code == Some(DATA)) && (config <==> code == Some(CONFIG))
             && (subscribe <==> code == Some(SUBSCRIBE)) && (unsubscribe <==> code == Some(UNSUBSCRIBE))
    ensures var f := FieldsOf(m.data);
            Crashes(apps, log, local, m) <==>
            || |f| < 2
            || (data && f[1] !in apps && |f| < 7)
            || (data && f[1] in apps && m.source != local && m.id !in WindowOf(log) && (|f| < 9 || KindOf(f[8]) == Unknown))
            || (config && |f| < 9)
            || (subscribe && (f[1] !in apps || m.source != local) && TooShort(f, m))
            || (unsubscribe && f[1] in apps && m.source != local && TooShort(f, m))
    ensures var f := FieldsOf(m.data); Relays(m) <==> |f| >= 9 && config && CodeOf(f[8], true) == Some(DATA)
  {
  }

  /** Exactly which messages end the event loop, and which are passed on, told by their fields. */
  lemma EndsLoopExactly(apps: Applications, log: seq<Message>, local: Str, m: Input, f: seq<Str>)
    requires f != [] && m.data == Join(f, SEPARATOR) && forall s :: s in f ==> Sound(s)
    ensures Crashes(apps, log, local, m) <==>
            || |f| < 2
            || (Numeral(f[0], 0) && f[1] !in apps && |f| < 7)
            || (Numeral(f[0], 0) && f[1] in apps && m.source != local && !Recent(log, m.id) && (|f| < 9 || KindOf(f[8]) == Unknown))
            || (Numeral(f[0], 1) && |f| < 9)
            || (Numeral(f[0], 2) && (f[1] !in apps || m.source != local) && TooShort(f, m))
            || (Numeral(f[0], 3) && f[1] in apps && m.source != local && TooShort(f, m))
    ensures Relays(m) <==> |f| >= 9 && Numeral(f[0], 1) && DataCode(f[8], true)
  {
    var data, config := Numeral(f[0], 0), Numeral(f[0], 1);
    var subscribe, unsubscribe := Numeral(f[0], 2), Numeral(f[0], 3);
    SoundArrives(f);
    CodesExactly(f[0]);
    RecentExactly(log, m.id);
    EndsByCode(apps, log, local, m, data, config, subscribe, unsubscribe);
    if |f| >= 9 {
      CodeExactly(f[8], true);
    }
  }

  lemma CodesExactly(s: Str)
    ensures ParseUnsigned(s, U8_LIMIT) == Some(DATA) <==> Numeral(s, 0)
    ensures ParseUnsigned(s, U8_LIMIT) == Some(CONFIG) <==> Numeral(s, 1)
    ensures ParseUnsigned(s, U8_LIMIT) == Some(SUBSCRIBE) <==> Numeral(s, 2)
    ensures ParseUnsigned(s, U8_LIMIT) == Some(UNSUBSCRIBE) <==> Numeral(s, 3)
  {
    ParseExactly(s, U8_LIMIT, 0);
    ParseExactly(s, U8_LIMIT, 1);
    ParseExactly(s, U8_LIMIT, 2);
    ParseExactly(s, U8_LIMIT, 3);
  }

  /** The fields of a configuration message, and of a subscription message with code `code`. */
  function ConfigFields(did: Str, url: Str, now: nat, peer: Str): seq<Str> {
    [Print(CONFIG), did, url, [], [], Print(now), [], peer, Print(0)]
  }

  function SubscriptionFields(code: nat, did: Str, addr: Str, peer: Str): seq<Str> {
    [Print(code), did, addr, peer]
  }

  lemma NumberIsSound(n: nat)
    ensures Sound(Print(n))
  {
    NumberIsPlain(n);
    NumberIsText(n);
  }

  lemma FieldsAreSound(did: Str, text: Str, now: nat, peer: Str, code: nat)
    requires Sound(did) && Sound(text) && Sound(peer)
    ensures forall s :: s in ConfigFields(did, text, now, peer) ==> Sound(s)
    ensures forall s :: s in SubscriptionFields(code, did, text, peer) ==> Sound(s)
  {
    NumberIsSound(CONFIG);
    NumberIsSound(code);
    NumberIsSound(now);
    NumberIsSound(0);
    DollarFreeIsPlain([]);
  }

  lemma SoundFieldsArrive(m: Input, f: seq<Str>)
    requires f != [] && m.data == Join(f, SEPARATOR) && forall s :: s in f ==> Sound(s)
    ensures FieldsOf(m.data) == f
  {
    assert forall k :: 0 <= k < |f| ==> Sound(f[k]);
    PlainArrives(f);
  }

  /** Nor do the configuration messages that nodes format: they are passed on, and touch neither tables
      nor log. */
  lemma ConfigIsSafe(r: Replica, local: Str, m: Input, did: Str, url: Str, now: nat, peer: Str)
    requires Sound(did) && Sound(url) && Sound(peer) && m.data == Join(ConfigFields(did, url, now, peer), SEPARATOR)
    ensures !Crashes(r.apps, r.log, local, m) && OnGossip(r, local, m) == r && Relays(m)
  {
    FieldsAreSound(did, url, now, peer, CONFIG);
    SoundFieldsArrive(m, ConfigFields(did, url, now, peer));
    ParseOfPrint(CONFIG, U8_LIMIT);
    ParseOfPrint(0, U8_LIMIT);
  }

  /** Nor do their subscription messages, which change nothing here. */
  lemma SubscriptionIsSafe(r: Replica, local: Str, m: Input, did: Str, addr: Str, peer: Str, code: nat)
    requires Sound(did) && Sound(addr) && Sound(peer) && code in {SUBSCRIBE, UNSUBSCRIBE}
    requires m.data == Join(SubscriptionFields(code, did, addr, peer), SEPARATOR)
    ensures !Crashes(r.apps, r.log, local, m) && OnGossip(r, local, m) == r && !Relays(m)
  {
    FieldsAreSound(did, addr, 0, peer, code);
    SoundFieldsArrive(m, SubscriptionFields(code, did, addr, peer));
    ParseOfPrint(code, U8_LIMIT);
  }

  function Deliveries(evs: seq<GossipEvent>, now: nat): (ds: seq<Delivery>)
    ensures |ds| == |evs| && forall i :: 0 <= i < |ds| ==> ds[i] == Delivery(evs[i], now)
  {
    seq(|evs|, i requires 0 <= i < |evs| => Delivery(evs[i], now))
  }

  ghost predicate Say(messages: seq<Str>, evs: seq<GossipEvent>) {
    |messages| == |evs| && forall i :: 0 <= i < |evs| ==> Read(messages[i], true) == Data(evs[i])
  }

  lemma SayFront(messages: seq<Str>, evs: seq<GossipEvent>)
    requires Say(messages, evs) && evs != []
    ensures Say(messages[..|evs| - 1], evs[..|evs| - 1]) && Read(messages[|evs| - 1], true) == Data(evs[|evs| - 1])
  {
  }

  lemma RunLast(apps: Applications, evs: seq<GossipEvent>, now: nat)
    requires evs != []
    ensures Run(apps, Deliveries(evs, now)) == Apply(Run(apps, Deliveries(evs[..|evs| - 1], now)), evs[|evs| - 1], now)
  {
    assert Deliveries(evs, now)[..|evs| - 1] == Deliveries(evs[..|evs| - 1], now);
  }

  /** Pulled messages that say events are a run of these, each applied at the clock of the pull. */
  lemma {:induction false} PulledIsRun(apps: Applications, messages: seq<Str>, evs: seq<GossipEvent>, now: nat)
    requires Say(messages, evs)
    ensures OnPulled(apps, Readings(messages), now) == Run(apps, Deliveries(evs, now))
    decreases |evs|
  {
    if |evs| == 0 {
      assert Readings(messages) == [] && Deliveries(evs, now) == [];
    } else {
      SayFront(messages, evs);
      PulledIsRun(apps, messages[..|evs| - 1], evs[..|evs| - 1], now);
      PulledLast(apps, messages, evs[|evs| - 1], now);
      RunLast(apps, evs, now);
    }
  }

  /** Messages that nodes formatted do say their events. */
  lemma FormattedSay(messages: seq<Str>, evs: seq<GossipEvent>)
    requires |messages| == |evs| && forall i :: 0 <= i < |evs| ==> Formats(messages[i], evs[i])
    ensures Say(messages, evs)
  {
    forall i | 0 <= i < |evs| ensures Read(messages[i], true) == Data(evs[i]) {
      FormatsArrive(messages[i], evs[i]);
    }
  }

  lemma PulledLast(apps: Applications, messages: seq<Str>, ev: GossipEvent, now: nat)
    requires messages != [] && Read(messages[|messages| - 1], true) == Data(ev)
    ensures OnPulled(apps, Readings(messages), now) == Apply(OnPulled(apps, Readings(messages[..|messages| - 1]), now), ev, now)
  {
    var n := |messages| - 1;
    assert Readings(messages)[..n] == Readings(messages[..n]);
  }

  ghost predicate Resent(ds: seq<Delivery>, message: Str) {
    exists k: nat :: k < |ds| && Formats(message, ds[k].ev)
  }

  lemma PulledOnceIsInert(apps: Applications, ds: seq<Delivery>, message: Str, now: nat)
    requires HonestWrites(apps, ds) && Resent(ds, message)
    ensures PullStep(Run(apps, ds), Read(message, true), now) == Run(apps, ds)
  {
    var k: nat :| k < |ds| && Formats(message, ds[k].ev);
    FormatsArrive(message, ds[k].ev);
    HonestRunSettles(apps, ds, k);
    SettledIsInert(Run(apps, ds), ds[k].ev, now);
  }

  /** Pulling messages for Writes that the node has already handled changes nothing, although the
      pull path skips the window. */
  lemma {:induction false} PulledAgainIsInert(apps: Applications, ds: seq<Delivery>, messages: seq<Str>, now: nat)
    requires HonestWrites(apps, ds)
    requires forall i :: 0 <= i < |messages| ==> Resent(ds, messages[i])
    ensures OnPulled(Run(apps, ds), Readings(messages), now) == Run(apps, ds)
  {
    if messages == [] {
    } else {
      var n := |messages| - 1;
      PulledAgainIsInert(apps, ds, messages[..n], now);
      PulledOnceIsInert(apps, ds, messages[n], now);
      assert Readings(messages)[..n] == Readings(messages[..n]);
    }
  }
}
