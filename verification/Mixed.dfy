/** One replica that handles gossiped events and its own clients' operations in the same run. */
module Mixed {
  import opened Options
  import opened Text
  import opened Store
  import C = Convergence
  import H = History

  datatype Step = Remote(d: C.Delivery) | Local(op: H.Op)

  function Do(apps: Applications, s: Step): Applications {
    match s
    case Remote(d) => Apply(apps, d.ev, d.now)
    case Local(op) => H.Step(apps, op)
  }

  function Run(apps: Applications, ss: seq<Step>): Applications {
    if ss == [] then apps else Do(Run(apps, ss[..|ss| - 1]), ss[|ss| - 1])
  }

  /** No gossiped Write for the application names an owner that is absent when it arrives. */
  ghost predicate Hosted(apps: Applications, ss: seq<Step>, did: Str) {
    ss == [] ||
    (Hosted(apps, ss[..|ss| - 1], did) &&
     var s := ss[|ss| - 1];
     s.Remote? && s.d.ev.did == did && s.d.ev.kind == Write ==> s.d.ev.owner in TableOf(Run(apps, ss[..|ss| - 1]), did))
  }

  // ---------------------------------------------------------------- one owner's access bit on its own

  function BitIn(apps: Applications, did: Str, owner: Str): Option<C.Setting> {
    var table := TableOf(apps, did);
    if owner in table then Some(C.SettingOf(table[owner])) else None
  }

  function BitStep(bit: Option<C.Setting>, s: Step, did: Str, owner: Str): Option<C.Setting> {
    match s
    case Remote(d) =>
      if d.ev.kind == Access && d.ev.did == did && d.ev.owner == owner && bit.Some? && d.ev.time > bit.value.time
      then Some(C.Setting(ParseBool(d.ev.key), d.now)) else bit
    case Local(op) =>
      match op
      case SetOp(d, o, _, _, _) => if d == did && o == owner && bit.None? then Some(C.Setting(true, 0)) else bit
      case AccessOp(d, o, perm, now) => if d == did && o == owner && bit.Some? then Some(C.Setting(perm, now)) else bit
      case _ => bit
  }

  function BitRun(bit: Option<C.Setting>, ss: seq<Step>, did: Str, owner: Str): Option<C.Setting> {
    if ss == [] then bit else BitStep(BitRun(bit, ss[..|ss| - 1], did, owner), ss[|ss| - 1], did, owner)
  }

  predicate Open(bit: Option<C.Setting>) { bit.Some? && bit.value.access }

  // ---------------------------------------------------------------- one cell on its own

  /** A del looks at the unit's own bit, a truncate does not. */
  datatype CellEvent = Gossip(d: C.Delivery) | Set(value: Str, now: nat) | Remove(checked: bool)

  function CellStep(cell: Option<DataUnit>, e: CellEvent): Option<DataUnit> {
    match e
    case Gossip(d) => C.CellAfter(cell, d)
    case Set(value, now) => Some(DataUnit(value, true, now))
    case Remove(checked) => if checked && cell.Some? && !cell.value.access then cell else None
  }

  function CellRun(cell: Option<DataUnit>, es: seq<CellEvent>): Option<DataUnit> {
    if es == [] then cell else CellStep(CellRun(cell, es[..|es| - 1]), es[|es| - 1])
  }

  /** What a step is to the cell, given the owner's bit: nothing, or one event. */
  function EventOf(bit: Option<C.Setting>, s: Step, did: Str, owner: Str, key: Str): seq<CellEvent> {
    match s
    case Remote(d) => if C.Concerns(d.ev, did, owner, key) then [Gossip(d)] else []
    case Local(op) =>
      match op
      case SetOp(d, o, k, value, now) => if d == did && o == owner && k == key then [Set(value, now)] else []
      case DelOp(d, o, k) => if d == did && o == owner && k == key && Open(bit) then [Remove(true)] else []
      case TruncateOp(d, o) => if d == did && o == owner && Open(bit) then [Remove(false)] else []
      case AccessOp(_, _, _, _) => []
  }

  function Project(bit: Option<C.Setting>, ss: seq<Step>, did: Str, owner: Str, key: Str): seq<CellEvent> {
    if ss == [] then []
    else
      var front := ss[..|ss| - 1];
      Project(bit, front, did, owner, key) + EventOf(BitRun(bit, front, did, owner), ss[|ss| - 1], did, owner, key)
  }

  lemma RemoteStep(apps: Applications, d: C.Delivery, did: Str, owner: Str, key: Str)
    requires did in apps
    requires d.ev.did == did && d.ev.kind == Write ==> d.ev.owner in TableOf(apps, did)
    ensures did in Apply(apps, d.ev, d.now)
    ensures BitIn(Apply(apps, d.ev, d.now), did, owner) == BitStep(BitIn(apps, did, owner), Remote(d), did, owner)
    ensures Lookup(Apply(apps, d.ev, d.now), did, owner, key) ==
            if C.Concerns(d.ev, did, owner, key) then C.CellAfter(Lookup(apps, did, owner, key), d) else Lookup(apps, did, owner, key)
  {
    C.StepOnCell(apps, d, did, owner, key);
  }

  lemma LocalBitStep(apps: Applications, op: H.Op, did: Str, owner: Str)
    requires did in apps
    ensures did in H.Step(apps, op)
    ensures BitIn(H.Step(apps, op), did, owner) == BitStep(BitIn(apps, did, owner), Local(op), did, owner)
  {
    match op
    case SetOp(_, _, _, _, _) =>
    case DelOp(_, _, _) =>
    case TruncateOp(_, _) =>
    case AccessOp(_, _, _, _) =>
  }

  lemma CellAppend(cell: Option<DataUnit>, es: seq<CellEvent>, more: seq<CellEvent>)
    requires |more| <= 1
    ensures CellRun(cell, es + more) == if more == [] then CellRun(cell, es) else CellStep(CellRun(cell, es), more[0])
  {
    if more == [] {
      assert es + more == es;
    } else {
      assert (es + more)[..|es|] == es;
    }
  }

  lemma CellOfStep(apps: Applications, s: Step, did: Str, owner: Str, key: Str)
    requires did in apps
    requires s.Remote? && s.d.ev.did == did && s.d.ev.kind == Write ==> s.d.ev.owner in TableOf(apps, did)
    ensures did in Do(apps, s) && BitIn(Do(apps, s), did, owner) == BitStep(BitIn(apps, did, owner), s, did, owner)
    ensures Lookup(Do(apps, s), did, owner, key) ==
            CellRun(Lookup(apps, did, owner, key), EventOf(BitIn(apps, did, owner), s, did, owner, key))
  {
    var cell, es := Lookup(apps, did, owner, key), EventOf(BitIn(apps, did, owner), s, did, owner, key);
    CellAppend(cell, [], es);
    assert [] + es == es;
    match s
    case Remote(d) => RemoteStep(apps, d, did, owner, key);
    case Local(op) =>
      LocalBitStep(apps, op, did, owner);
      H.UnitAfterStep(apps, op, did, owner, key);
  }

  /** A replica that mixes both, seen at one (owner, key), is that cell alone: over the owner's Truncates and
      the key's Writes and Deletes, the key's local sets, and the local removals made while the owner's bit
      was on; and the bit is the owner's own access changes alone. */
  lemma {:induction false} Projection(apps: Applications, ss: seq<Step>, did: Str, owner: Str, key: Str)
    requires did in apps && Hosted(apps, ss, did)
    ensures did in Run(apps, ss)
    ensures BitIn(Run(apps, ss), did, owner) == BitRun(BitIn(apps, did, owner), ss, did, owner)
    ensures Lookup(Run(apps, ss), did, owner, key) ==
            CellRun(Lookup(apps, did, owner, key), Project(BitIn(apps, did, owner), ss, did, owner, key))
  {
    if ss == [] {
    } else {
      var front, s := ss[..|ss| - 1], ss[|ss| - 1];
      var before, bit := Run(apps, front), BitIn(apps, did, owner);
      Projection(apps, front, did, owner, key);
      CellOfStep(before, s, did, owner, key);
      var es, more := Project(bit, front, did, owner, key), EventOf(BitIn(before, did, owner), s, did, owner, key);
      CellAppend(Lookup(apps, did, owner, key), es, more);
      CellAppend(Lookup(before, did, owner, key), [], more);
      assert [] + more == more;
    }
  }

  // ---------------------------------------------------------------- which value stays

  /** What an event that is accepted stores. */
  function Stored(e: CellEvent): Option<DataUnit> {
    match e
    case Gossip(d) => if d.ev.kind == Write then Some(DataUnit(d.ev.value, true, d.now)) else None
    case Set(value, now) => Some(DataUnit(value, true, now))
    case Remove(_) => None
  }

  predicate Stores(cell: Option<DataUnit>, e: CellEvent) {
    Stored(e).Some? && (e.Gossip? ==> C.Accepts(cell, e.d.ev))
  }

  /** Only gossip that is not newer than the stamp. */
  ghost predicate Quiet(es: seq<CellEvent>, i: nat, stamp: nat) {
    forall j :: i < j < |es| ==> es[j].Gossip? && es[j].d.ev.time <= stamp
  }

  /** A set or an accepted Write stands as long as nothing newer than its stamp is gossiped and no client
      touches the cell. */
  lemma {:induction false} StampShields(cell: Option<DataUnit>, es: seq<CellEvent>, i: nat)
    requires i < |es| && Stores(CellRun(cell, es[..i]), es[i]) && Quiet(es, i, Stored(es[i]).value.writeTime)
    ensures CellRun(cell, es) == Stored(es[i])
  {
    var n := |es| - 1;
    if i == n {
    } else {
      assert es[..n][..i] == es[..i];
      StampShields(cell, es[..n], i);
    }
  }

  lemma {:induction false} StampBound(cell: Option<DataUnit>, es: seq<CellEvent>, bound: nat)
    requires StoredTime(cell) < bound
    requires forall j :: 0 <= j < |es| && Stored(es[j]).Some? ==> Stored(es[j]).value.writeTime < bound
    ensures StoredTime(CellRun(cell, es)) < bound
  {
    if es == [] {
    } else {
      StampBound(cell, es[..|es| - 1], bound);
    }
  }

  /** A gossiped Write newer than everything stored here before, by clients or by gossip, followed by nothing
      newer and by no client, decides the cell of the whole replica. */
  lemma WriteWins(apps: Applications, ss: seq<Step>, did: Str, owner: Str, key: Str, i: nat)
    requires did in apps && Hosted(apps, ss, did)
    requires var es := Project(BitIn(apps, did, owner), ss, did, owner, key);
             && i < |es| && es[i].Gossip? && es[i].d.ev.kind == Write && es[i].d.ev.time <= es[i].d.now
             && StoredTime(Lookup(apps, did, owner, key)) < es[i].d.ev.time
             && (forall j :: 0 <= j < i && Stored(es[j]).Some? ==> Stored(es[j]).value.writeTime < es[i].d.ev.time)
             && Quiet(es, i, es[i].d.ev.time)
    ensures Lookup(Run(apps, ss), did, owner, key) == Stored(Project(BitIn(apps, did, owner), ss, did, owner, key)[i])
  {
    var es, cell := Project(BitIn(apps, did, owner), ss, did, owner, key), Lookup(apps, did, owner, key);
    Projection(apps, ss, did, owner, key);
    StampBound(cell, es[..i], es[i].d.ev.time);
    StampShields(cell, es, i);
  }

  /** A client's set stays until something newer than it is gossiped or its owner's clients touch the key. */
  lemma SetStands(apps: Applications, ss: seq<Step>, did: Str, owner: Str, key: Str, i: nat)
    requires did in apps && Hosted(apps, ss, did)
    requires var es := Project(BitIn(apps, did, owner), ss, did, owner, key);
             i < |es| && es[i].Set? && Quiet(es, i, es[i].now)
    ensures Lookup(Run(apps, ss), did, owner, key) == Stored(Project(BitIn(apps, did, owner), ss, did, owner, key)[i])
  {
    Projection(apps, ss, did, owner, key);
    StampShields(Lookup(apps, did, owner, key), Project(BitIn(apps, did, owner), ss, did, owner, key), i);
  }
}
