/** The nested-map store of one initialized node, read back from the log of local operations.

    The log semantics below looks only at positions of the log: it knows nothing of tables. */
module History {
  import opened Options
  import opened Text
  import opened Store

  datatype Op =
    | SetOp(did: Str, owner: Str, key: Str, value: Str, now: nat)
    | DelOp(did: Str, owner: Str, key: Str)
    | TruncateOp(did: Str, owner: Str)
    | AccessOp(did: Str, owner: Str, perm: bool, now: nat)

  /** Initialization is complete and the temporary cache is empty. */
  function Steady(apps: Applications): Db { Db(apps, map[], true) }

  function Step(apps: Applications, op: Op): Applications {
    match op
    case SetOp(did, owner, key, value, now) => SetValue(Steady(apps), did, Some(owner), key, value, now, now).db.applications
    case DelOp(did, owner, key) => DelValue(Steady(apps), did, Some(owner), key, 0).db.applications
    case TruncateOp(did, owner) => TruncateKeys(Steady(apps), did, Some(owner), 0).db.applications
    case AccessOp(did, owner, perm, now) => ManageAccess(Steady(apps), did, owner, perm, now, now).db.applications
  }

  function Run(apps: Applications, log: seq<Op>): Applications {
    if log == [] then apps else Step(Run(apps, log[..|log| - 1]), log[|log| - 1])
  }

  // ---------------------------------------------------------------- reading the log

  predicate Sets(op: Op, did: Str, owner: Str, key: Str) {
    op.SetOp? && op.did == did && op.owner == owner && op.key == key
  }

  /** The owner was there from the start or some set named it. */
  ghost predicate Known(a0: Applications, log: seq<Op>, did: Str, owner: Str) {
    did in a0 &&
    (owner in a0[did] || exists i :: 0 <= i < |log| && log[i].SetOp? && log[i].did == did && log[i].owner == owner)
  }

  /** The last access change made to a known owner, or else its initial bit. */
  ghost predicate Allowed(a0: Applications, log: seq<Op>, did: Str, owner: Str)
    requires Known(a0, log, did, owner)
  {
    if log == [] then a0[did][owner].access
    else
      var h, op := log[..|log| - 1], log[|log| - 1];
      if !Known(a0, h, did, owner) then true
      else if op.AccessOp? && op.did == did && op.owner == owner then op.perm
      else Allowed(a0, h, did, owner)
  }

  ghost predicate Effective(a0: Applications, log: seq<Op>, did: Str, owner: Str) {
    Known(a0, log, did, owner) && Allowed(a0, log, did, owner)
  }

  /** Operation `j` of the log removes the key. A del also needs the unit itself to be accessible. */
  ghost predicate Erases(a0: Applications, log: seq<Op>, j: nat, unitAccess: bool, did: Str, owner: Str, key: Str)
    requires j < |log|
  {
    && Effective(a0, log[..j], did, owner)
    && ((log[j] == TruncateOp(did, owner)) || (log[j] == DelOp(did, owner, key) && unitAccess))
  }

  /** Set `i` is the last one and no effective removal follows it. */
  ghost predicate LiveSet(a0: Applications, log: seq<Op>, i: nat, did: Str, owner: Str, key: Str) {
    && i < |log| && Sets(log[i], did, owner, key) && did in a0
    && forall j :: i < j < |log| ==> !Sets(log[j], did, owner, key) && !Erases(a0, log, j, true, did, owner, key)
  }

  ghost predicate InitiallyThere(a0: Applications, did: Str, owner: Str, key: Str) {
    did in a0 && owner in a0[did] && key in a0[did][owner].data
  }

  ghost predicate LiveInitial(a0: Applications, log: seq<Op>, did: Str, owner: Str, key: Str) {
    && InitiallyThere(a0, did, owner, key)
    && var access := a0[did][owner].data[key].access;
       forall j :: 0 <= j < |log| ==> !Sets(log[j], did, owner, key) && !Erases(a0, log, j, access, did, owner, key)
  }

  /** What the log says is stored. */
  ghost predicate Stored(a0: Applications, log: seq<Op>, did: Str, owner: Str, key: Str, u: DataUnit) {
    || (exists i: nat :: LiveSet(a0, log, i, did, owner, key) && u == DataUnit(log[i].value, true, log[i].now))
    || (LiveInitial(a0, log, did, owner, key) && u == a0[did][owner].data[key])
  }

  // ---------------------------------------------------------------- the log decides the table

  lemma KnownSteps(a0: Applications, log: seq<Op>, did: Str, owner: Str)
    requires log != []
    ensures var h, op := log[..|log| - 1], log[|log| - 1];
            Known(a0, log, did, owner) <==>
            Known(a0, h, did, owner) || (did in a0 && op.SetOp? && op.did == did && op.owner == owner)
  {
    var h := log[..|log| - 1];
    assert forall i :: 0 <= i < |h| ==> h[i] == log[i];
  }

  lemma OwnerAfterStep(apps: Applications, op: Op, did: Str, owner: Str)
    ensures Step(apps, op).Keys == apps.Keys
    ensures var t, t' := TableOf(apps, did), TableOf(Step(apps, op), did);
            && (owner in t' <==> owner in t || (did in apps && op.SetOp? && op.did == did && op.owner == owner))
            && (owner in t' ==>
                  t'[owner].access == (if owner !in t then true
                                       else if op.AccessOp? && op.did == did && op.owner == owner then op.perm
                                       else t[owner].access))
  {
    match op
    case SetOp(_, _, _, _, _) =>
    case DelOp(_, _, _) =>
    case TruncateOp(_, _) =>
    case AccessOp(_, _, _, _) =>
  }

  lemma {:induction false} OwnersFromLog(a0: Applications, log: seq<Op>, did: Str, owner: Str)
    ensures Run(a0, log).Keys == a0.Keys
    ensures owner in TableOf(Run(a0, log), did) <==> Known(a0, log, did, owner)
    ensures Known(a0, log, did, owner) ==> TableOf(Run(a0, log), did)[owner].access == Allowed(a0, log, did, owner)
  {
    if log == [] {
    } else {
      var h := log[..|log| - 1];
      OwnersFromLog(a0, h, did, owner);
      KnownSteps(a0, log, did, owner);
      OwnerAfterStep(Run(a0, h), log[|log| - 1], did, owner);
    }
  }

  // The unit after one more operation.
  ghost function UnitAfter(a0: Applications, h: seq<Op>, op: Op, u: Option<DataUnit>, did: Str, owner: Str, key: Str): Option<DataUnit> {
    if Sets(op, did, owner, key) && did in a0 then Some(DataUnit(op.value, true, op.now))
    else if Effective(a0, h, did, owner) && (op == TruncateOp(did, owner) || (op == DelOp(did, owner, key) && u.Some? && u.value.access)) then None
    else u
  }

  lemma UnitAfterStep(apps: Applications, op: Op, did: Str, owner: Str, key: Str)
    ensures var u := Lookup(apps, did, owner, key);
            Lookup(Step(apps, op), did, owner, key) ==
            if Sets(op, did, owner, key) && did in apps then Some(DataUnit(op.value, true, op.now))
            else if owner in TableOf(apps, did) && apps[did][owner].access
                    && (op == TruncateOp(did, owner) || (op == DelOp(did, owner, key) && u.Some? && u.value.access)) then None
            else u
  {
    match op
    case SetOp(_, _, _, _, _) =>
    case DelOp(_, _, _) =>
    case TruncateOp(_, _) =>
    case AccessOp(_, _, _, _) =>
  }

  lemma UnitStep(a0: Applications, log: seq<Op>, did: Str, owner: Str, key: Str)
    requires log != []
    ensures var h := log[..|log| - 1];
            Lookup(Run(a0, log), did, owner, key) ==
            UnitAfter(a0, h, log[|log| - 1], Lookup(Run(a0, h), did, owner, key), did, owner, key)
  {
    var h := log[..|log| - 1];
    OwnersFromLog(a0, h, did, owner);
    UnitAfterStep(Run(a0, h), log[|log| - 1], did, owner, key);
  }

  lemma LiveSetSteps(a0: Applications, log: seq<Op>, i: nat, did: Str, owner: Str, key: Str)
    requires log != []
    ensures var n := |log| - 1;
            LiveSet(a0, log, i, did, owner, key) <==>
            || (i == n && did in a0 && Sets(log[n], did, owner, key))
            || (LiveSet(a0, log[..n], i, did, owner, key) && !Sets(log[n], did, owner, key) && !Erases(a0, log, n, true, did, owner, key))
  {
    var n := |log| - 1;
    assert forall j :: 0 <= j < n ==> log[..n][..j] == log[..j] && log[..n][j] == log[j];
  }

  lemma LiveInitialSteps(a0: Applications, log: seq<Op>, did: Str, owner: Str, key: Str)
    requires log != [] && InitiallyThere(a0, did, owner, key)
    ensures var n, access := |log| - 1, a0[did][owner].data[key].access;
            LiveInitial(a0, log, did, owner, key) <==>
            LiveInitial(a0, log[..n], did, owner, key) && !Sets(log[n], did, owner, key) && !Erases(a0, log, n, access, did, owner, key)
  {
    var n := |log| - 1;
    assert forall j :: 0 <= j < n ==> log[..n][..j] == log[..j] && log[..n][j] == log[j];
  }

  lemma StoredSteps(a0: Applications, log: seq<Op>, did: Str, owner: Str, key: Str, u: DataUnit)
    requires log != []
    ensures var h, op := log[..|log| - 1], log[|log| - 1];
            Stored(a0, log, did, owner, key, u) <==>
            if Sets(op, did, owner, key) && did in a0 then u == DataUnit(op.value, true, op.now)
            else
              && Stored(a0, h, did, owner, key, u)
              && !(Effective(a0, h, did, owner) && (op == TruncateOp(did, owner) || (op == DelOp(did, owner, key) && u.access)))
  {
    var n := |log| - 1;
    var h := log[..n];
    assert forall i: nat :: i < n ==> log[i] == h[i];
    forall i: nat {
      LiveSetSteps(a0, log, i, did, owner, key);
    }
    if InitiallyThere(a0, did, owner, key) {
      LiveInitialSteps(a0, log, did, owner, key);
    }
    if Sets(log[n], did, owner, key) && did in a0 {
      assert LiveSet(a0, log, n, did, owner, key);
    }
  }

  /** Every cell of the nested maps is what the log says. */
  lemma {:induction false} StoreRefinesLog(a0: Applications, log: seq<Op>, did: Str, owner: Str, key: Str, u: DataUnit)
    ensures Lookup(Run(a0, log), did, owner, key) == Some(u) <==> Stored(a0, log, did, owner, key, u)
  {
    if log == [] {
      assert forall i: nat :: !LiveSet(a0, log, i, did, owner, key);
    } else {
      var h := log[..|log| - 1];
      UnitStep(a0, log, did, owner, key);
      StoredSteps(a0, log, did, owner, key, u);
      StoreRefinesLog(a0, h, did, owner, key, u);
    }
  }

  // ---------------------------------------------------------------- what a client is told

  /** The application is absent, or holds no owner at all. */
  ghost predicate Uninitialized(a0: Applications, log: seq<Op>, did: Str) {
    forall owner :: !Known(a0, log, did, owner)
  }

  /** After any run, get answers exactly what the log says, errors included. */
  lemma GetFromLog(a0: Applications, log: seq<Op>, did: Str, samDid: Option<Str>, key: Str)
    ensures var reply := GetValue(Steady(Run(a0, log)), did, samDid, key);
            var owner := if samDid.Some? then samDid.value else did;
            && (forall v :: reply == Got(key, v) <==>
                  Effective(a0, log, did, owner) && exists u :: Stored(a0, log, did, owner, key, u) && u.access && u.data == v)
            && (reply == Failed(InitializationError) <==> Uninitialized(a0, log, did))
            && (reply == Failed(AccessDenied) <==>
                  Known(a0, log, did, owner) &&
                  (!Allowed(a0, log, did, owner) || exists u :: Stored(a0, log, did, owner, key, u) && !u.access))
            && (reply == Failed(EntryNotFound) <==>
                  && !Uninitialized(a0, log, did)
                  && (Known(a0, log, did, owner) ==>
                        Allowed(a0, log, did, owner) && forall u :: !Stored(a0, log, did, owner, key, u)))
  {
    var owner := OwnerOf(did, samDid);
    var apps := Run(a0, log);
    OwnersFromLog(a0, log, did, owner);
    forall u ensures Lookup(apps, did, owner, key) == Some(u) <==> Stored(a0, log, did, owner, key, u) {
      StoreRefinesLog(a0, log, did, owner, key, u);
    }
    forall o ensures o in TableOf(apps, did) <==> Known(a0, log, did, o) {
      OwnersFromLog(a0, log, did, o);
    }
    assert Uninitialized(a0, log, did) <==> TableOf(apps, did) == map[] by {
      if TableOf(apps, did) != map[] {
        var o :| o in TableOf(apps, did);
        assert Known(a0, log, did, o);
      }
    }
    if Known(a0, log, did, owner) && key in TableOf(apps, did)[owner].data {
      assert Stored(a0, log, did, owner, key, TableOf(apps, did)[owner].data[key]);
    }
  }

  /** `exists` agrees with `get` in every state, the temporary cache included. */
  lemma ExistsAgreesWithGet(db: Db, did: Str, samDid: Option<Str>, key: Str)
    ensures var got, found := GetValue(db, did, samDid, key), KeyExists(db, did, samDid, key);
            && (found == Exists(true) <==> got.Got?)
            && (found == Exists(false) <==> got == Failed(EntryNotFound))
            && (found.Failed? ==> found == got)
            && (got.Failed? && got != Failed(EntryNotFound) ==> found == got)
  {
  }

  /** A del or truncate succeeds, and is published, exactly when the log makes it effective; a refused
      one is silent: it changes nothing and publishes nothing. */
  lemma RemovalsFromLog(a0: Applications, log: seq<Op>, did: Str, samDid: Option<Str>, key: Str, now: nat)
    ensures var db := Steady(Run(a0, log));
            var owner := if samDid.Some? then samDid.value else did;
            var del, trunc := DelValue(db, did, samDid, key, now), TruncateKeys(db, did, samDid, now);
            && (del.reply == Empty <==>
                  Effective(a0, log, did, owner) && exists u :: Stored(a0, log, did, owner, key, u) && u.access)
            && (del.reply != Empty ==>
                  del.db == db && del.published == None && del.reply == GetValue(db, did, samDid, key))
            && (del.reply == Empty ==> del.published == Some(GossipEvent(Delete, did, key, [], owner, now)))
            && (trunc.reply == Empty <==> Effective(a0, log, did, owner))
            && (trunc.reply == Empty ==> trunc.published == Some(GossipEvent(Truncate, did, [], [], owner, now)))
            && (trunc.reply != Empty ==>
                  trunc.db == db && trunc.published == None && GetValue(db, did, samDid, key) == trunc.reply)
  {
    var owner := if samDid.Some? then samDid.value else did;
    GetFromLog(a0, log, did, samDid, key);
    OwnersFromLog(a0, log, did, owner);
    var got := GetValue(Steady(Run(a0, log)), did, samDid, key);
    if got.Got? {
      assert got == Got(key, got.value);
    } else if u :| Stored(a0, log, did, owner, key, u) && u.access {
      assert Effective(a0, log, did, owner) ==> got == Got(key, u.data);
    }
  }

  /** A set succeeds exactly when the application is hosted, whatever the owner's access bit: it stores the
      value with the later clock reading and publishes it, for the application where no owner is named, with
      the earlier one. It can be read back unless the owner was there and denied. A refused set is silent. */
  lemma SetFromLog(a0: Applications, log: seq<Op>, did: Str, samDid: Option<Str>, key: Str, value: Str, now: nat, stamp: nat)
    ensures var db := Steady(Run(a0, log));
            var owner := if samDid.Some? then samDid.value else did;
            var done := SetValue(db, did, samDid, key, value, now, stamp);
            && (done.reply == Empty <==> did in a0)
            && (done.reply != Empty ==> done == Outcome(db, Failed(InitializationError), None))
            && (done.reply == Empty ==>
                  && done.published == Some(GossipEvent(Write, did, key, value, owner, now))
                  && Lookup(done.db.applications, did, owner, key) == Some(DataUnit(value, true, stamp))
                  && (GetValue(done.db, did, samDid, key) == Got(key, value) <==>
                        (Known(a0, log, did, owner) ==> Allowed(a0, log, did, owner))))
  {
    OwnersFromLog(a0, log, did, if samDid.Some? then samDid.value else did);
  }

  /** An access change takes effect, and is published, exactly when the owner is known; it is stamped with
      one clock reading and published with the other. Otherwise nothing happens. */
  lemma AccessFromLog(a0: Applications, log: seq<Op>, did: Str, owner: Str, perm: bool, now: nat, sent: nat)
    ensures var db := Steady(Run(a0, log));
            var change := ManageAccess(db, did, owner, perm, now, sent);
            && change.reply == Empty
            && (if Known(a0, log, did, owner) then
                  && change.published == Some(GossipEvent(Access, did, PrintBool(perm), [], owner, sent))
                  && owner in TableOf(change.db.applications, did)
                  && TableOf(change.db.applications, did)[owner] == TableOf(db.applications, did)[owner].(access := perm, accessTime := now)
                else change.db == db && change.published == None)
  {
    OwnersFromLog(a0, log, did, owner);
  }

  // ---------------------------------------------------------------- before initialization is complete

  /** Operations as clients issue them; leaving the owner out is not the same as naming the application here. */
  datatype EarlyOp =
    | SetEarly(did: Str, samDid: Option<Str>, key: Str, value: Str, now: nat)
    | DelEarly(did: Str, samDid: Option<Str>, key: Str)
    | EarlyTruncate(did: Str, samDid: Option<Str>)
    | EarlyAccess(did: Str, owner: Str, perm: bool, now: nat)

  function EarlyStep(db: Db, op: EarlyOp): Db {
    match op
    case SetEarly(did, samDid, key, value, now) => SetValue(db, did, samDid, key, value, now, now).db
    case DelEarly(did, samDid, key) => DelValue(db, did, samDid, key, 0).db
    case EarlyTruncate(did, samDid) => TruncateKeys(db, did, samDid, 0).db
    case EarlyAccess(did, owner, perm, now) => ManageAccess(db, did, owner, perm, now, now).db
  }

  function EarlyRun(a0: Applications, log: seq<EarlyOp>): Db {
    if log == [] then Db(a0, map[], false) else EarlyStep(EarlyRun(a0, log[..|log| - 1]), log[|log| - 1])
  }

  predicate SetsEarly(op: EarlyOp, did: Str, key: Str) { op.SetEarly? && op.did == did && op.key == key }

  /** Set `i` is the last one of the key, whoever's, and its own owner has not deleted the key since. */
  ghost predicate LiveEarly(a0: Applications, log: seq<EarlyOp>, i: nat, did: Str, key: Str) {
    && i < |log| && SetsEarly(log[i], did, key) && did in a0
    && forall j :: i < j < |log| ==> !SetsEarly(log[j], did, key) && log[j] != DelEarly(did, log[i].samDid, key)
  }

  lemma CacheAfterStep(db: Db, op: EarlyOp, did: Str, key: Str, c: CacheData)
    requires !db.initialized
    ensures var db' := EarlyStep(db, op);
            && !db'.initialized && db'.applications.Keys == db.applications.Keys
            && ((key in CacheOf(db', did) && CacheOf(db', did)[key] == c) <==>
                if SetsEarly(op, did, key) && did in db.applications then c == CacheData(op.samDid, op.value, op.now)
                else key in CacheOf(db, did) && CacheOf(db, did)[key] == c && op != DelEarly(did, c.samDid, key))
  {
    match op
    case SetEarly(_, _, _, _, _) =>
    case DelEarly(_, _, _) =>
    case EarlyTruncate(_, _) =>
    case EarlyAccess(_, _, _, _) =>
  }

  lemma LiveEarlySteps(a0: Applications, log: seq<EarlyOp>, i: nat, did: Str, key: Str)
    requires log != []
    ensures var n := |log| - 1;
            LiveEarly(a0, log, i, did, key) <==>
            || (i == n && did in a0 && SetsEarly(log[n], did, key))
            || (LiveEarly(a0, log[..n], i, did, key) && !SetsEarly(log[n], did, key) && log[n] != DelEarly(did, log[i].samDid, key))
  {
    var n := |log| - 1;
    assert forall j :: 0 <= j < n ==> log[..n][j] == log[j];
  }

  /** While the node initializes, the temporary cache holds exactly the live sets: one value per key, so that a
      set by another owner hides it. */
  lemma {:induction false} CacheRefinesLog(a0: Applications, log: seq<EarlyOp>, did: Str, key: Str, c: CacheData)
    ensures !EarlyRun(a0, log).initialized && EarlyRun(a0, log).applications.Keys == a0.Keys
    ensures key in CacheOf(EarlyRun(a0, log), did) && CacheOf(EarlyRun(a0, log), did)[key] == c <==>
            exists i: nat :: LiveEarly(a0, log, i, did, key) && c == CacheData(log[i].samDid, log[i].value, log[i].now)
  {
    if log == [] {
      assert forall i: nat :: !LiveEarly(a0, log, i, did, key);
    } else {
      var n := |log| - 1;
      CacheRefinesLog(a0, log[..n], did, key, c);
      CacheAfterStep(EarlyRun(a0, log[..n]), log[n], did, key, c);
      forall i: nat {
        LiveEarlySteps(a0, log, i, did, key);
      }
      assert forall i: nat :: i < n ==> log[i] == log[..n][i];
      if SetsEarly(log[n], did, key) && did in a0 {
        assert LiveEarly(a0, log, n, did, key);
      }
    }
  }

  /** What get answers meanwhile: the live set if the asker is its owner, or else what the table says. */
  lemma EarlyGet(a0: Applications, log: seq<EarlyOp>, did: Str, samDid: Option<Str>, key: Str)
    ensures var db := EarlyRun(a0, log);
            && (forall i: nat :: LiveEarly(a0, log, i, did, key) && log[i].samDid == samDid ==>
                  GetValue(db, did, samDid, key) == Got(key, log[i].value))
            && ((forall i: nat :: LiveEarly(a0, log, i, did, key) ==> log[i].samDid != samDid) ==>
                  GetValue(db, did, samDid, key) == GetValue(Steady(db.applications), did, samDid, key))
  {
    var db := EarlyRun(a0, log);
    forall i: nat | LiveEarly(a0, log, i, did, key) && log[i].samDid == samDid
      ensures GetValue(db, did, samDid, key) == Got(key, log[i].value)
    {
      CacheRefinesLog(a0, log, did, key, CacheData(log[i].samDid, log[i].value, log[i].now));
    }
    if Cached(db, did, samDid, key) {
      CacheRefinesLog(a0, log, did, key, CacheOf(db, did)[key]);
    }
  }

  /** A set succeeds meanwhile exactly when the application is hosted; it is published at once, stays out of
      the tables, and is read back. */
  lemma EarlySet(a0: Applications, log: seq<EarlyOp>, did: Str, samDid: Option<Str>, key: Str, value: Str, now: nat, stamp: nat)
    ensures var db := EarlyRun(a0, log);
            var done := SetValue(db, did, samDid, key, value, now, stamp);
            && (done.reply == Empty <==> did in a0)
            && (done.reply != Empty ==> done == Outcome(db, Failed(InitializationError), None))
            && (done.reply == Empty ==>
                  && done.published == Some(GossipEvent(Write, did, key, value, if samDid.Some? then samDid.value else did, now))
                  && done.db.applications == db.applications
                  && key in CacheOf(done.db, did) && CacheOf(done.db, did)[key] == CacheData(samDid, value, now)
                  && GetValue(done.db, did, samDid, key) == Got(key, value))
  {
    CacheRefinesLog(a0, log, did, key, CacheData(None, [], 0));
  }

  ghost predicate LiveFor(a0: Applications, log: seq<EarlyOp>, did: Str, samDid: Option<Str>, key: Str) {
    exists i: nat :: LiveEarly(a0, log, i, did, key) && log[i].samDid == samDid
  }

  lemma CachedExactly(a0: Applications, log: seq<EarlyOp>, did: Str, samDid: Option<Str>, key: Str)
    ensures Cached(EarlyRun(a0, log), did, samDid, key) <==> LiveFor(a0, log, did, samDid, key)
  {
    var db := EarlyRun(a0, log);
    if Cached(db, did, samDid, key) {
      CacheRefinesLog(a0, log, did, key, CacheOf(db, did)[key]);
    }
    if i: nat :| LiveEarly(a0, log, i, did, key) && log[i].samDid == samDid {
      CacheRefinesLog(a0, log, did, key, CacheData(log[i].samDid, log[i].value, log[i].now));
    }
  }

  /** What an operation does when it leaves the cache alone and acts on the tables. */
  ghost predicate OnTables(db: Db, out: Outcome, onTables: Outcome) {
    out.reply == onTables.reply && out.published == onTables.published && out.db == db.(applications := onTables.db.applications)
  }

  /** A del by the owner of the live set takes it out of the cache, touches no table and tells no peer; any
      other del, and any truncate, leaves the cache alone and acts on the tables. */
  lemma EarlyDel(a0: Applications, log: seq<EarlyOp>, did: Str, samDid: Option<Str>, key: Str, now: nat)
    ensures var db := EarlyRun(a0, log);
            var del := DelValue(db, did, samDid, key, now);
            if LiveFor(a0, log, did, samDid, key) then
              && del.reply == Empty && del.published == None && del.db.applications == db.applications
              && CacheOf(del.db, did) == CacheOf(db, did) - {key}
            else OnTables(db, del, DelValue(Steady(db.applications), did, samDid, key, now))
    ensures var db := EarlyRun(a0, log);
            OnTables(db, TruncateKeys(db, did, samDid, now), TruncateKeys(Steady(db.applications), did, samDid, now))
  {
    CachedExactly(a0, log, did, samDid, key);
    DelStep(EarlyRun(a0, log), did, samDid, key, now);
  }

  lemma DelStep(db: Db, did: Str, samDid: Option<Str>, key: Str, now: nat)
    ensures var del := DelValue(db, did, samDid, key, now);
            if Cached(db, did, samDid, key) then
              && del.reply == Empty && del.published == None && del.db.applications == db.applications
              && CacheOf(del.db, did) == CacheOf(db, did) - {key}
            else OnTables(db, del, DelValue(Steady(db.applications), did, samDid, key, now))
  {
  }
}
