/** What runs of gossiped events do to a replica, whatever the delivery order.

    An accepted Write is stamped with the receiver's clock, not with the sender's time, so the laws
    below compare event times with the clocks of earlier receipts. */
module Convergence {
  import opened Options
  import opened Text
  import opened Store

  /** An event and the clock of the replica when it handles it. */
  datatype Delivery = Delivery(ev: GossipEvent, now: nat)

  function Run(apps: Applications, ds: seq<Delivery>): Applications {
    if ds == [] then apps
    else
      var d := ds[|ds| - 1];
      Apply(Run(apps, ds[..|ds| - 1]), d.ev, d.now)
  }

  // ---------------------------------------------------------------- one cell on its own

  predicate Concerns(ev: GossipEvent, did: Str, owner: Str, key: Str) {
    ev.did == did && ev.owner == owner && (ev.kind == Truncate || (ev.key == key && ev.kind in {Write, Delete}))
  }

  function Project(ds: seq<Delivery>, did: Str, owner: Str, key: Str): seq<Delivery> {
    if ds == [] then []
    else
      var d, rest := ds[|ds| - 1], Project(ds[..|ds| - 1], did, owner, key);
      if Concerns(d.ev, did, owner, key) then rest + [d] else rest
  }

  predicate Accepts(cell: Option<DataUnit>, ev: GossipEvent) {
    match ev.kind
    case Write => ev.time > StoredTime(cell)
    case Delete => cell.Some? && ev.time > cell.value.writeTime
    case Truncate => cell.Some? && ev.time > cell.value.writeTime
    case _ => false
  }

  function CellAfter(cell: Option<DataUnit>, d: Delivery): Option<DataUnit> {
    if !Accepts(cell, d.ev) then cell
    else if d.ev.kind == Write then Some(DataUnit(d.ev.value, true, d.now))
    else None
  }

  function CellRun(cell: Option<DataUnit>, ps: seq<Delivery>): Option<DataUnit> {
    if ps == [] then cell else CellAfter(CellRun(cell, ps[..|ps| - 1]), ps[|ps| - 1])
  }

  /** Every Write for the application names an owner that is already present. */
  ghost predicate Hosted(apps: Applications, ds: seq<Delivery>, did: Str) {
    forall i :: 0 <= i < |ds| && ds[i].ev.did == did && ds[i].ev.kind == Write ==> ds[i].ev.owner in TableOf(apps, did)
  }

  lemma StepOnCell(apps: Applications, d: Delivery, did: Str, owner: Str, key: Str)
    requires Hosted(apps, [d], did)
    ensures TableOf(Apply(apps, d.ev, d.now), did).Keys == TableOf(apps, did).Keys
    ensures Lookup(Apply(apps, d.ev, d.now), did, owner, key) ==
            if Concerns(d.ev, did, owner, key) then CellAfter(Lookup(apps, did, owner, key), d)
            else Lookup(apps, did, owner, key)
  {
    assert [d][0] == d;
  }

  /** The run of a whole replica, seen at one (owner, key), is the run of that cell alone over that
      owner's Truncates and that key's Writes and Deletes. */
  lemma {:induction false} Projection(apps: Applications, ds: seq<Delivery>, did: Str, owner: Str, key: Str)
    requires Hosted(apps, ds, did)
    ensures TableOf(Run(apps, ds), did).Keys == TableOf(apps, did).Keys
    ensures Lookup(Run(apps, ds), did, owner, key) ==
            CellRun(Lookup(apps, did, owner, key), Project(ds, did, owner, key))
  {
    if ds == [] {
    } else {
      var front, d := ds[..|ds| - 1], ds[|ds| - 1];
      Projection(apps, front, did, owner, key);
      assert Hosted(Run(apps, front), [d], did);
      StepOnCell(Run(apps, front), d, did, owner, key);
      var ps := Project(front, did, owner, key);
      assert (ps + [d])[..|ps|] == ps;
    }
  }

  /** One step keeps the other owners' entries unless it is a Write for an owner the table lacks. */
  lemma OthersKept(apps: Applications, d: Delivery)
    ensures var before, after := TableOf(apps, d.ev.did), TableOf(Apply(apps, d.ev, d.now), d.ev.did);
            (forall o :: o in before && o != d.ev.owner ==> o in after && after[o] == before[o])
            <==> !(d.ev.kind == Write && d.ev.owner !in before && before != map[])
  {
    var before := TableOf(apps, d.ev.did);
    if d.ev.kind == Write && d.ev.owner !in before && before != map[] {
      var o :| o in before;
      assert o != d.ev.owner;
    }
  }

  // ---------------------------------------------------------------- access settings

  datatype Setting = Setting(access: bool, time: nat)

  function SettingOf(entry: HashTableData): Setting { Setting(entry.access, entry.accessTime) }

  function SettingRun(s: Setting, ds: seq<Delivery>, did: Str, owner: Str): Setting {
    if ds == [] then s
    else
      var d, before := ds[|ds| - 1], SettingRun(s, ds[..|ds| - 1], did, owner);
      if d.ev.kind == Access && d.ev.did == did && d.ev.owner == owner && d.ev.time > before.time
      then Setting(ParseBool(d.ev.key), d.now) else before
  }

  /** An owner's access bit and its time depend only on that owner's Access events. */
  lemma {:induction false} AccessProjection(apps: Applications, ds: seq<Delivery>, did: Str, owner: Str)
    requires Hosted(apps, ds, did)
    requires owner in TableOf(apps, did)
    ensures owner in TableOf(Run(apps, ds), did)
    ensures SettingOf(TableOf(Run(apps, ds), did)[owner]) ==
            SettingRun(SettingOf(TableOf(apps, did)[owner]), ds, did, owner)
  {
    if ds == [] {
    } else {
      var front, d := ds[..|ds| - 1], ds[|ds| - 1];
      AccessProjection(apps, front, did, owner);
      Projection(apps, front, did, owner, []);
      assert d.ev.did == did && d.ev.kind == Write ==> d.ev.owner in TableOf(Run(apps, front), did);
    }
  }

  /** The newer of two Access events wins in both orders exactly when it is newer than the clock at which the
      older one was received first; only the text "true" allows. */
  lemma NewerAccessWinsExactly(apps: Applications, older: GossipEvent, newer: GossipEvent, a1: nat, a2: nat, b1: nat, b2: nat)
    requires older.kind == newer.kind == Access && older.did == newer.did && older.owner == newer.owner
    requires older.owner in TableOf(apps, older.did) && ((older.key == TRUE) <==> newer.key != TRUE)
    requires TableOf(apps, older.did)[older.owner].accessTime < older.time < newer.time <= b1
    ensures var did, owner := older.did, older.owner;
            var x := TableOf(Run(apps, [Delivery(older, a1), Delivery(newer, a2)]), did);
            var y := TableOf(Run(apps, [Delivery(newer, b1), Delivery(older, b2)]), did);
            && owner in x && owner in y && y[owner].access == (newer.key == TRUE) && y[owner].accessTime == b1
            && (x[owner].access == y[owner].access <==> a1 < newer.time)
  {
    var did, owner := older.did, older.owner;
    var s := SettingOf(TableOf(apps, did)[owner]);
    var xs, ys := [Delivery(older, a1), Delivery(newer, a2)], [Delivery(newer, b1), Delivery(older, b2)];
    AccessProjection(apps, xs, did, owner);
    AccessProjection(apps, ys, did, owner);
    assert xs[..1] == [xs[0]] && ys[..1] == [ys[0]];
    assert xs[..1][..0] == [] && ys[..1][..0] == [];
    assert SettingRun(s, xs[..1], did, owner) == Setting(older.key == TRUE, a1);
    assert SettingRun(s, ys[..1], did, owner) == Setting(newer.key == TRUE, b1);
  }

  // ---------------------------------------------------------------- which Write wins

  /** Index of the last delivery the cell accepted, or -1. */
  function LastAccepted(cell: Option<DataUnit>, ps: seq<Delivery>): int {
    if ps == [] then -1
    else if Accepts(CellRun(cell, ps[..|ps| - 1]), ps[|ps| - 1].ev) then |ps| - 1
    else LastAccepted(cell, ps[..|ps| - 1])
  }

  ghost predicate Latest(ps: seq<Delivery>, i: nat)
    requires i < |ps|
  {
    forall j :: 0 <= j < |ps| ==> ps[j].ev.time <= ps[i].ev.time
  }

  // Once a Write is stamped, events that are not newer than the stamp bounce off.
  lemma {:induction false} StampShields(cell: Option<DataUnit>, ps: seq<Delivery>, i: nat)
    requires i < |ps| && ps[i].ev.kind == Write
    requires Accepts(CellRun(cell, ps[..i]), ps[i].ev)
    requires forall j :: i < j < |ps| ==> ps[j].ev.time <= ps[i].now
    ensures CellRun(cell, ps) == Some(DataUnit(ps[i].ev.value, true, ps[i].now))
    ensures LastAccepted(cell, ps) == i
  {
    var n := |ps| - 1;
    if i == n {
    } else {
      var front := ps[..n];
      assert front[..i] == ps[..i];
      StampShields(cell, front, i);
    }
  }

  lemma {:induction false} LastAcceptedInPrefix(cell: Option<DataUnit>, ps: seq<Delivery>, i: nat)
    requires i < |ps| && LastAccepted(cell, ps) == i
    ensures Accepts(CellRun(cell, ps[..i]), ps[i].ev)
  {
    var n := |ps| - 1;
    if !Accepts(CellRun(cell, ps[..n]), ps[n].ev) {
      LastAcceptedBelow(cell, ps[..n]);
      LastAcceptedInPrefix(cell, ps[..n], i);
      assert ps[..n][..i] == ps[..i];
    } else {
      assert i == n;
    }
  }

  lemma {:induction false} LastAcceptedBelow(cell: Option<DataUnit>, ps: seq<Delivery>)
    ensures -1 <= LastAccepted(cell, ps) < |ps|
  {
    if ps == [] {
    } else {
      LastAcceptedBelow(cell, ps[..|ps| - 1]);
    }
  }

  /** A latest Write that arrives no earlier than its own time decides the cell exactly when its
      time beats the stamp stored at its receipt. */
  lemma WinnerExactly(cell: Option<DataUnit>, ps: seq<Delivery>, i: nat)
    requires i < |ps| && ps[i].ev.kind == Write
    requires Latest(ps, i) && ps[i].now >= ps[i].ev.time
    ensures LastAccepted(cell, ps) == i <==> StoredTime(CellRun(cell, ps[..i])) < ps[i].ev.time
    ensures LastAccepted(cell, ps) == i ==> CellRun(cell, ps) == Some(DataUnit(ps[i].ev.value, true, ps[i].now))
  {
    if StoredTime(CellRun(cell, ps[..i])) < ps[i].ev.time {
      StampShields(cell, ps, i);
    } else if LastAccepted(cell, ps) == i {
      LastAcceptedInPrefix(cell, ps, i);
    }
  }

  lemma {:induction false} StampBound(cell: Option<DataUnit>, ps: seq<Delivery>, bound: nat)
    requires StoredTime(cell) < bound
    requires forall j :: 0 <= j < |ps| ==> ps[j].now < bound
    ensures StoredTime(CellRun(cell, ps)) < bound
  {
    if ps == [] {
    } else {
      StampBound(cell, ps[..|ps| - 1], bound);
    }
  }

  /** `w` is newer than everything stored or seen when it arrives, and nothing is newer than it. */
  ghost predicate Prevails(cell: Option<DataUnit>, ps: seq<Delivery>, i: nat) {
    && i < |ps| && ps[i].ev.kind == Write
    && StoredTime(cell) < ps[i].ev.time <= ps[i].now
    && (forall j :: 0 <= j < i ==> ps[j].now < ps[i].ev.time)
    && Latest(ps, i)
  }

  lemma OrderIndependentWinner(cell: Option<DataUnit>, ps: seq<Delivery>, i: nat)
    requires Prevails(cell, ps, i)
    ensures CellRun(cell, ps) == Some(DataUnit(ps[i].ev.value, true, ps[i].now))
  {
    StampBound(cell, ps[..i], ps[i].ev.time);
    WinnerExactly(cell, ps, i);
  }

  /** Two replicas whose runs interleave any events for any owners in any order agree on a cell for
      which the same Write prevails in both. */
  lemma ReplicasAgree(a: Applications, da: seq<Delivery>, i: nat,
                      b: Applications, db: seq<Delivery>, j: nat, did: Str, owner: Str, key: Str)
    requires Hosted(a, da, did) && Hosted(b, db, did)
    requires Prevails(Lookup(a, did, owner, key), Project(da, did, owner, key), i)
    requires Prevails(Lookup(b, did, owner, key), Project(db, did, owner, key), j)
    requires Project(da, did, owner, key)[i].ev == Project(db, did, owner, key)[j].ev
    ensures var x, y := Lookup(Run(a, da), did, owner, key), Lookup(Run(b, db), did, owner, key);
            x.Some? && y.Some? && x.value.data == y.value.data == Project(da, did, owner, key)[i].ev.value
  {
    Projection(a, da, did, owner, key);
    Projection(b, db, did, owner, key);
    OrderIndependentWinner(Lookup(a, did, owner, key), Project(da, did, owner, key), i);
    OrderIndependentWinner(Lookup(b, did, owner, key), Project(db, did, owner, key), j);
  }

  /** The textbook rule "the newer of two Writes wins in both orders" holds exactly when the newer
      one is newer than the clock at which the older one was received first. */
  lemma NewerWriteWinsExactly(cell: Option<DataUnit>, older: GossipEvent, newer: GossipEvent,
                              a1: nat, a2: nat, b1: nat, b2: nat)
    requires older.kind == newer.kind == Write && older.value != newer.value
    requires StoredTime(cell) < older.time < newer.time <= b1
    ensures var x := CellRun(cell, [Delivery(older, a1), Delivery(newer, a2)]);
            var y := CellRun(cell, [Delivery(newer, b1), Delivery(older, b2)]);
            && x.Some? && y.Some? && y.value.data == newer.value
            && (x.value.data == y.value.data <==> a1 < newer.time)
  {
    var xs, ys := [Delivery(older, a1), Delivery(newer, a2)], [Delivery(newer, b1), Delivery(older, b2)];
    assert xs[..1] == [xs[0]] && ys[..1] == [ys[0]];
    assert xs[..1][..0] == [] && ys[..1][..0] == [];
    assert CellRun(cell, xs[..1]) == CellAfter(cell, xs[0]);
    assert CellRun(cell, ys[..1]) == CellAfter(cell, ys[0]);
  }

  /** "Consistency is based on timestamps" fails: from any tables that have the owner but not the key, the same
      two Writes, handled at the same clock in opposite orders, leave two replicas with different values. */
  lemma ReplicasCanDiverge(apps: Applications, did: Str, owner: Str, key: Str)
    requires owner in TableOf(apps, did) && key !in TableOf(apps, did)[owner].data
    ensures var first := Delivery(GossipEvent(Write, did, key, [1], owner, 10), 20);
            var second := Delivery(GossipEvent(Write, did, key, [2], owner, 12), 20);
            Lookup(Run(apps, [first, second]), did, owner, key) != Lookup(Run(apps, [second, first]), did, owner, key)
  {
    var first := Delivery(GossipEvent(Write, did, key, [1], owner, 10), 20);
    var second := Delivery(GossipEvent(Write, did, key, [2], owner, 12), 20);
    NewerWriteWinsExactly(None, first.ev, second.ev, 20, 20, 20, 20);
    Projection(apps, [first, second], did, owner, key);
    Projection(apps, [second, first], did, owner, key);
    ProjectPair(first, second, did, owner, key);
    ProjectPair(second, first, did, owner, key);
  }

  lemma ProjectPair(a: Delivery, b: Delivery, did: Str, owner: Str, key: Str)
    requires Concerns(a.ev, did, owner, key) && Concerns(b.ev, did, owner, key)
    ensures Project([a, b], did, owner, key) == [a, b]
  {
    assert [a, b][..1] == [a] && [a][..0] == [];
    assert Project([a], did, owner, key) == [a];
  }

  /** No tombstone is kept: after an accepted Delete or Truncate, an older Write that arrives late
      brings the key back, unless its time reads as zero. */
  lemma RemovalPrevailsExactly(cell: Option<DataUnit>, removal: GossipEvent, older: GossipEvent, n1: nat, n2: nat)
    requires removal.kind in {Delete, Truncate} && cell.Some? && removal.time > cell.value.writeTime
    requires older.kind == Write && older.time < removal.time
    ensures CellRun(cell, [Delivery(removal, n1), Delivery(older, n2)]) == None <==> older.time == 0
  {
    var ps := [Delivery(removal, n1), Delivery(older, n2)];
    assert ps[..1] == [ps[0]] && ps[..1][..0] == [];
    assert CellRun(cell, ps[..1]) == CellAfter(cell, ps[0]);
  }

  /** A Delete, and a Truncate for each key of the owner, takes exactly what is stamped before it, and leaves
      the rest as it is. */
  lemma RemovalTakesExactly(apps: Applications, ev: GossipEvent, now: nat, key: Str)
    requires ev.owner in TableOf(apps, ev.did) && (ev.kind == Truncate || (ev.kind == Delete && ev.key == key))
    ensures var u := Lookup(apps, ev.did, ev.owner, key);
            Lookup(Apply(apps, ev, now), ev.did, ev.owner, key) ==
            if u.Some? && ev.time > u.value.writeTime then None else u
  {
    Projection(apps, [Delivery(ev, now)], ev.did, ev.owner, key);
    var ds := [Delivery(ev, now)];
    assert ds[..0] == [];
    assert Project(ds, ev.did, ev.owner, key) == [] + ds == ds;
  }

  /** A Write for an owner that the application lacks leaves that owner alone in it, accessible, with the one
      key stamped by the receiver's clock; any event makes its application a hosted one, and none touches
      another. */
  lemma ReplacingWrite(apps: Applications, ev: GossipEvent, now: nat)
    ensures Apply(apps, ev, now).Keys == apps.Keys + {ev.did}
    ensures forall d :: d in apps && d != ev.did ==> Apply(apps, ev, now)[d] == apps[d]
    ensures ev.kind == Write && ev.owner !in TableOf(apps, ev.did) ==>
              TableOf(Apply(apps, ev, now), ev.did) ==
              map[ev.owner := HashTableData(ev.owner, [], true, map[ev.key := DataUnit(ev.value, true, now)], 0)]
    ensures ev.kind != Write && ev.owner !in TableOf(apps, ev.did) ==> TableOf(Apply(apps, ev, now), ev.did) == TableOf(apps, ev.did)
  {
  }

  // ---------------------------------------------------------------- redelivery

  /** A Write whose redelivery can no longer change the replica. */
  ghost predicate Settled(apps: Applications, ev: GossipEvent) {
    && ev.kind == Write && ev.owner in TableOf(apps, ev.did)
    && ev.time <= StoredTime(Lookup(apps, ev.did, ev.owner, ev.key))
  }

  ghost predicate HonestWrites(apps: Applications, ds: seq<Delivery>) {
    forall i :: 0 <= i < |ds| ==>
      ds[i].ev.kind == Write && ds[i].ev.owner in TableOf(apps, ds[i].ev.did) && ds[i].ev.time <= ds[i].now
  }

  ghost predicate Handled(ds: seq<Delivery>, ev: GossipEvent) {
    exists k :: 0 <= k < |ds| && ds[k].ev == ev
  }

  lemma SettledIsInert(apps: Applications, ev: GossipEvent, now: nat)
    requires Settled(apps, ev)
    ensures Apply(apps, ev, now) == apps
  {
    assert TableOf(apps, ev.did)[ev.owner := TableOf(apps, ev.did)[ev.owner]] == TableOf(apps, ev.did);
  }

  lemma HonestWriteSettles(apps: Applications, d: Delivery, other: GossipEvent)
    requires d.ev.kind == Write && d.ev.owner in TableOf(apps, d.ev.did) && d.ev.time <= d.now
    ensures Settled(Apply(apps, d.ev, d.now), d.ev)
    ensures Settled(apps, other) ==> Settled(Apply(apps, d.ev, d.now), other)
  {
  }

  lemma {:induction false} HonestRunSettles(apps: Applications, ds: seq<Delivery>, k: nat)
    requires HonestWrites(apps, ds) && k < |ds|
    ensures Settled(Run(apps, ds), ds[k].ev)
  {
    var n := |ds| - 1;
    var before := Run(apps, ds[..n]);
    assert ds[n].ev.owner in TableOf(before, ds[n].ev.did) by {
      KeysKept(apps, ds[..n], ds[n].ev.did);
    }
    if k < n {
      HonestRunSettles(apps, ds[..n], k);
    }
    HonestWriteSettles(before, ds[n], ds[k].ev);
  }

  lemma KeysKept(apps: Applications, ds: seq<Delivery>, did: Str)
    requires HonestWrites(apps, ds)
    ensures TableOf(Run(apps, ds), did).Keys == TableOf(apps, did).Keys
  {
    Projection(apps, ds, did, [], []);
  }

  /** After a run of Writes received no earlier than their times, redelivering any of them, any
      number of times, in any order and at any clock, changes nothing anywhere in the replica. */
  lemma {:induction false} ReplayIdempotence(apps: Applications, ds: seq<Delivery>, again: seq<Delivery>)
    requires HonestWrites(apps, ds)
    requires forall i :: 0 <= i < |again| ==> Handled(ds, again[i].ev)
    ensures Run(Run(apps, ds), again) == Run(apps, ds)
  {
    if again == [] {
    } else {
      var r := again[|again| - 1];
      ReplayIdempotence(apps, ds, again[..|again| - 1]);
      var k :| 0 <= k < |ds| && ds[k].ev == r.ev;
      HonestRunSettles(apps, ds, k);
      SettledIsInert(Run(apps, ds), r.ev, r.now);
    }
  }

  /** Redelivering one Write is harmless exactly when it was refused the first time, or was stamped
      no earlier than its own time, or comes back within the same clock reading. */
  lemma ReplayExactly(apps: Applications, ev: GossipEvent, now: nat, later: nat)
    requires ev.kind == Write
    ensures Apply(Apply(apps, ev, now), ev, later) == Apply(apps, ev, now) <==>
            || (ev.owner in TableOf(apps, ev.did) && ev.time <= StoredTime(Lookup(apps, ev.did, ev.owner, ev.key)))
            || ev.time <= now || later == now
  {
    var once := Apply(apps, ev, now);
    var twice := Apply(once, ev, later);
    if ev.owner in TableOf(apps, ev.did) && ev.time <= StoredTime(Lookup(apps, ev.did, ev.owner, ev.key)) {
      SettledIsInert(apps, ev, now);
      SettledIsInert(apps, ev, later);
    } else if ev.time <= now {
      SettledIsInert(once, ev, later);
    } else {
      assert Lookup(twice, ev.did, ev.owner, ev.key) == Some(DataUnit(ev.value, true, later));
      assert Lookup(once, ev.did, ev.owner, ev.key) == Some(DataUnit(ev.value, true, now));
      if later == now {
        var t1, t2 := once[ev.did], twice[ev.did];
        assert t1[ev.owner].data == t2[ev.owner].data;
        assert t1[ev.owner] == t2[ev.owner];
        assert t1 == t2;
        assert once == twice;
      }
    }
  }
}
