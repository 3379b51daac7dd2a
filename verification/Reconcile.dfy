/** The background loop that brings a node's access bits in line with the contract's restriction list
    (`manage_data_access_changes` in database/src/network.rs). */
module Reconcile {
  import opened Options
  import opened Text
  import opened Store
  import opened Contract
  import opened ContractCodec

  /** `disjoint_strings`: the items of `b` that are not in `a`, in order. */
  function Disjoint(a: seq<Str>, b: seq<Str>): seq<Str> { Filter(b, Members(a), false) }

  lemma DisjointMembers(a: seq<Str>, b: seq<Str>, x: Str)
    ensures x in Disjoint(a, b) <==> x in b && x !in a
  {
    FilterMembers(b, Members(a), false, x);
  }

  function SetBits(apps: Applications, did: Str, users: seq<Str>, perm: bool, now: nat): Applications {
    if users == [] then apps
    else
      var before := SetBits(apps, did, users[..|users| - 1], perm, now);
      ManageAccess(Db(before, map[], true), did, users[|users| - 1], perm, now, now).db.applications
  }

  datatype Round = Round(apps: Applications, restrictions: Lists)

  /** The users recorded as restricted, as the loop reads them. */
  function Recorded(restrictions: Lists, did: Str): seq<Str> { DropNul(ListOf(restrictions, did)) }

  /** Freed users; their names, not the application's, are then removed as keys of the record. */
  function Freed(r: Round, did: Str, listed: seq<Str>): seq<Str> { Disjoint(DropNul(listed), Recorded(r.restrictions, did)) }

  /** One pass of the loop; `listed` is what `extract_dids` made of the contract's answer. */
  function Pass(r: Round, did: Str, listed: seq<Str>, now: nat): Round {
    var freed := Freed(r, did, listed);
    var restrictions := r.restrictions - Members(freed);
    var actors := Recorded(restrictions, did);
    var blockers := Disjoint(actors, DropNul(listed));
    Round(SetBits(SetBits(r.apps, did, freed, true, now), did, blockers, false, now),
          if blockers == [] then restrictions else restrictions[did := actors + blockers])
  }

  class DataAccessManager {
    var restrictions: Lists

    constructor ()
      ensures restrictions == map[]
    {
      restrictions := map[];
    }

    method Free(did: Str, users: seq<Str>, state: DBState, now: nat)
      modifies this, state
      ensures state.applications == SetBits(old(state.applications), did, users, true, now)
      ensures restrictions == old(restrictions) - Members(users)
      ensures state.cache == old(state.cache) && state.initialized == old(state.initialized)
    {
      for i := 0 to |users|
        invariant state.applications == SetBits(old(state.applications), did, users[..i], true, now)
        invariant restrictions == old(restrictions) - Members(users[..i])
        invariant state.cache == old(state.cache) && state.initialized == old(state.initialized)
      {
        assert users[..i + 1] == users[..i] + [users[i]];
        var _ := state.ManageDbAccess(did, users[i], true, now, now);
        restrictions := restrictions - {users[i]};
      }
      assert users[..|users|] == users;
    }

    method Block(did: Str, users: seq<Str>, state: DBState, now: nat)
      modifies state
      ensures state.applications == SetBits(old(state.applications), did, users, false, now)
      ensures state.cache == old(state.cache) && state.initialized == old(state.initialized)
    {
      for i := 0 to |users|
        invariant state.applications == SetBits(old(state.applications), did, users[..i], false, now)
        invariant state.cache == old(state.cache) && state.initialized == old(state.initialized)
      {
        assert users[..i + 1] == users[..i] + [users[i]];
        var _ := state.ManageDbAccess(did, users[i], false, now, now);
      }
      assert users[..|users|] == users;
    }

    /** One round of the loop. */
    method ManageDataAccessChanges(did: Str, listed: seq<Str>, state: DBState, now: nat)
      modifies this, state
      ensures Round(state.applications, restrictions) == Pass(old(Round(state.applications, restrictions)), did, listed, now)
      ensures state.cache == old(state.cache) && state.initialized == old(state.initialized)
    {
      var userDids := DropNul(listed);
      var actorDids := DropNul(ListOf(restrictions, did));
      var liberalDids := Disjoint(userDids, actorDids);
      Free(did, liberalDids, state, now);
      actorDids := DropNul(ListOf(restrictions, did));
      var blockerDids := Disjoint(actorDids, userDids);
      Block(did, blockerDids, state, now);
      if |blockerDids| > 0 {
        restrictions := restrictions[did := actorDids + blockerDids];
      }
    }
  }

  // ---------------------------------------------------------------- what a pass achieves

  predicate Denied(apps: Applications, did: Str, owner: Str)
    requires owner in TableOf(apps, did)
  {
    !apps[did][owner].access
  }

  lemma {:induction false} BitsSet(apps: Applications, did: Str, users: seq<Str>, perm: bool, now: nat, owner: Str)
    ensures owner in TableOf(SetBits(apps, did, users, perm, now), did) <==> owner in TableOf(apps, did)
    ensures owner in TableOf(apps, did) ==>
              Denied(SetBits(apps, did, users, perm, now), did, owner) == if owner in users then !perm else Denied(apps, did, owner)
  {
    if users == [] {
    } else {
      var front, last := users[..|users| - 1], users[|users| - 1];
      BitsSet(apps, did, front, perm, now, owner);
      assert users == front + [last];
    }
  }

  /** What the record is reduced to before blockers are looked for: a user freed under the
      application's own name takes the whole record away. */
  function Remaining(r: Round, did: Str, listed: seq<Str>): seq<Str> {
    if did in Freed(r, did, listed) then [] else Recorded(r.restrictions, did)
  }

  /** After one pass from any state an existing owner is denied exactly in these cases. */
  lemma PassDecides(r: Round, did: Str, listed: seq<Str>, now: nat, owner: Str)
    requires owner in TableOf(r.apps, did)
    ensures owner in TableOf(Pass(r, did, listed, now).apps, did)
    ensures Denied(Pass(r, did, listed, now).apps, did, owner) <==>
            if owner in DropNul(listed) then owner !in Remaining(r, did, listed) || Denied(r.apps, did, owner)
            else owner !in Recorded(r.restrictions, did) && Denied(r.apps, did, owner)
  {
    var freed := Freed(r, did, listed);
    var restrictions := r.restrictions - Members(freed);
    var blockers := Disjoint(Recorded(restrictions, did), DropNul(listed));
    assert Recorded(restrictions, did) == Remaining(r, did, listed);
    DisjointMembers(DropNul(listed), Recorded(r.restrictions, did), owner);
    DisjointMembers(Recorded(restrictions, did), DropNul(listed), owner);
    BitsSet(r.apps, did, freed, true, now, owner);
    BitsSet(SetBits(r.apps, did, freed, true, now), did, blockers, false, now, owner);
  }

  ghost predicate Agrees(apps: Applications, did: Str, list: seq<Str>) {
    forall o :: o in TableOf(apps, did) ==> (Denied(apps, did, o) <==> o in list)
  }

  /** One pass makes exactly the listed owners denied, provided every listed owner that is already on
      record is denied and every other owner on neither list is not: no other start will do. */
  lemma PassCorrectExactly(r: Round, did: Str, listed: seq<Str>, now: nat)
    ensures Agrees(Pass(r, did, listed, now).apps, did, DropNul(listed)) <==>
            forall o :: o in TableOf(r.apps, did) ==>
              if o in DropNul(listed) then o !in Remaining(r, did, listed) || Denied(r.apps, did, o)
              else o in Recorded(r.restrictions, did) || !Denied(r.apps, did, o)
  {
    var after := Pass(r, did, listed, now).apps;
    forall o ensures o in TableOf(after, did) <==> o in TableOf(r.apps, did) {
      OwnersStay(r, did, listed, now, o);
    }
    forall o | o in TableOf(r.apps, did)
      ensures Denied(after, did, o) <==>
              if o in DropNul(listed) then o !in Remaining(r, did, listed) || Denied(r.apps, did, o)
              else o !in Recorded(r.restrictions, did) && Denied(r.apps, did, o)
    {
      PassDecides(r, did, listed, now, o);
    }
  }

  lemma OwnersStay(r: Round, did: Str, listed: seq<Str>, now: nat, owner: Str)
    ensures owner in TableOf(Pass(r, did, listed, now).apps, did) <==> owner in TableOf(r.apps, did)
  {
    var freed := Freed(r, did, listed);
    var blockers := Disjoint(Recorded(r.restrictions - Members(freed), did), DropNul(listed));
    BitsSet(r.apps, did, freed, true, now, owner);
    BitsSet(SetBits(r.apps, did, freed, true, now), did, blockers, false, now, owner);
  }

  function Passes(r: Round, did: Str, lists: seq<seq<Str>>, now: nat): Round {
    if lists == [] then r else Pass(Passes(r, did, lists[..|lists| - 1], now), did, lists[|lists| - 1], now)
  }

  ghost predicate Included(a: seq<Str>, b: seq<Str>) { forall x :: x in a ==> x in b }

  ghost predicate SameMembers(a: seq<Str>, b: seq<Str>) { forall x :: x in a <==> x in b }

  /** The record is exactly the list, and so are the denied owners. */
  ghost predicate InStep(r: Round, did: Str, list: seq<Str>) {
    SameMembers(Recorded(r.restrictions, did), list) && Agrees(r.apps, did, list)
  }

  lemma GrowingPass(r: Round, did: Str, list: seq<Str>, listed: seq<Str>, now: nat)
    requires InStep(r, did, list) && Included(list, DropNul(listed))
    ensures InStep(Pass(r, did, listed, now), did, DropNul(listed))
  {
    var users, recorded, freed := DropNul(listed), Recorded(r.restrictions, did), Freed(r, did, listed);
    if freed != [] {
      DisjointMembers(users, recorded, freed[0]);
    }
    assert freed == [];
    assert r.restrictions - Members(freed) == r.restrictions;
    PassCorrectExactly(r, did, listed, now);
    var blockers := Disjoint(recorded, users);
    var after := Pass(r, did, listed, now).restrictions;
    forall x ensures x in Recorded(after, did) <==> x in users {
      DisjointMembers(recorded, users, x);
      WithoutMembers(recorded + blockers, NUL, x);
      WithoutMembers(ListOf(r.restrictions, did), NUL, x);
      WithoutMembers(listed, NUL, x);
    }
  }

  function LatestList(start: seq<Str>, lists: seq<seq<Str>>): seq<Str> {
    if lists == [] then start else DropNul(lists[|lists| - 1])
  }

  ghost predicate Grows(start: seq<Str>, lists: seq<seq<Str>>) {
    lists == [] ||
    (Grows(start, lists[..|lists| - 1]) &&
     Included(LatestList(start, lists[..|lists| - 1]), LatestList(start, lists)))
  }

  /** While the contract's list only grows, the denied owners are its members after every pass. */
  lemma {:induction false} GrowingLists(r: Round, did: Str, start: seq<Str>, lists: seq<seq<Str>>, now: nat)
    requires InStep(r, did, start) && Grows(start, lists)
    ensures InStep(Passes(r, did, lists, now), did, LatestList(start, lists))
  {
    if lists == [] {
    } else {
      var front, last := lists[..|lists| - 1], lists[|lists| - 1];
      GrowingLists(r, did, start, front, now);
      var before := Passes(r, did, front, now);
      assert LatestList(start, lists) == DropNul(last);
      GrowingPass(before, did, LatestList(start, front), last, now);
      assert Passes(r, did, lists, now) == Pass(before, did, last, now);
    }
  }

  /** The owner is on record but not denied (and the application is not on its own record). */
  ghost predicate Open(r: Round, did: Str, owner: Str) {
    && owner in TableOf(r.apps, did) && owner in Recorded(r.restrictions, did) && !Denied(r.apps, did, owner)
    && did !in Recorded(r.restrictions, did)
  }

  lemma StaysOpen(r: Round, did: Str, listed: seq<Str>, now: nat, owner: Str)
    requires Open(r, did, owner) && owner in DropNul(listed) && did !in DropNul(listed)
    ensures Open(Pass(r, did, listed, now), did, owner)
  {
    PassDecides(r, did, listed, now, owner);
    DisjointMembers(DropNul(listed), Recorded(r.restrictions, did), did);
    RecordAfter(r, did, listed, now, owner);
    RecordAfter(r, did, listed, now, did);
  }

  lemma RecordAfter(r: Round, did: Str, listed: seq<Str>, now: nat, x: Str)
    requires did !in Freed(r, did, listed)
    ensures x in Recorded(Pass(r, did, listed, now).restrictions, did) <==> x in Recorded(r.restrictions, did) || x in DropNul(listed)
  {
    var restrictions := r.restrictions - Members(Freed(r, did, listed));
    var actors := Recorded(restrictions, did);
    assert actors == Recorded(r.restrictions, did);
    DisjointMembers(actors, DropNul(listed), x);
    WithoutMembers(ListOf(r.restrictions, did), NUL, x);
    WithoutMembers(listed, NUL, x);
    WithoutMembers(actors + Disjoint(actors, DropNul(listed)), NUL, x);
  }

  lemma FreeingOpens(r: Round, did: Str, listed: seq<Str>, now: nat, owner: Str)
    requires owner in TableOf(r.apps, did) && owner in Recorded(r.restrictions, did)
    requires did !in Recorded(r.restrictions, did) && owner !in DropNul(listed) && did !in DropNul(listed)
    ensures Open(Pass(r, did, listed, now), did, owner)
  {
    PassDecides(r, did, listed, now, owner);
    DisjointMembers(DropNul(listed), Recorded(r.restrictions, did), did);
    RecordAfter(r, did, listed, now, owner);
    RecordAfter(r, did, listed, now, did);
  }

  ghost predicate AllName(lists: seq<seq<Str>>, did: Str, owner: Str) {
    forall i :: 0 <= i < |lists| ==> owner in DropNul(lists[i]) && did !in DropNul(lists[i])
  }

  /** A shrinking list breaks it for good: once a recorded user is freed, that user stays on record,
      and when the user blocks again no later pass denies the owner however long the list names it. */
  lemma BlockedAgainIsMissed(r: Round, did: Str, freed: seq<Str>, lists: seq<seq<Str>>, now: nat, owner: Str)
    requires owner in TableOf(r.apps, did) && owner in Recorded(r.restrictions, did) && did !in Recorded(r.restrictions, did)
    requires owner !in DropNul(freed) && did !in DropNul(freed)
    requires AllName(lists, did, owner)
    ensures Open(Passes(Pass(r, did, freed, now), did, lists, now), did, owner)
  {
    FreeingOpens(r, did, freed, now, owner);
    PassesStayOpen(Pass(r, did, freed, now), did, lists, now, owner);
  }

  lemma {:induction false} PassesStayOpen(r: Round, did: Str, lists: seq<seq<Str>>, now: nat, owner: Str)
    requires Open(r, did, owner) && AllName(lists, did, owner)
    ensures Open(Passes(r, did, lists, now), did, owner)
  {
    if lists == [] {
    } else {
      var n := |lists| - 1;
      assert AllName(lists[..n], did, owner);
      PassesStayOpen(r, did, lists[..n], now, owner);
      StaysOpen(Passes(r, did, lists[..n], now), did, lists[n], now, owner);
    }
  }

  // ---------------------------------------------------------------- every run from the start

  ghost predicate Ever(lists: seq<seq<Str>>, x: Str) { exists j :: 0 <= j < |lists| && x in DropNul(lists[j]) }

  /** In no round before `i`, and in every one from then on. */
  ghost predicate ListedFrom(lists: seq<seq<Str>>, x: Str, i: nat) {
    forall j :: 0 <= j < |lists| ==> (x in DropNul(lists[j]) <==> j >= i)
  }

  /** Listed now and in every round since its first listing. */
  ghost predicate Unbroken(lists: seq<seq<Str>>, x: Str) { exists i: nat :: i < |lists| && ListedFrom(lists, x, i) }

  lemma ListingSteps(lists: seq<seq<Str>>, x: Str)
    requires lists != []
    ensures var front, last := lists[..|lists| - 1], lists[|lists| - 1];
            && (Ever(lists, x) <==> Ever(front, x) || x in DropNul(last))
            && (Unbroken(lists, x) <==> x in DropNul(last) && (Unbroken(front, x) || !Ever(front, x)))
  {
    var n := |lists| - 1;
    var front := lists[..n];
    assert forall j :: 0 <= j < n ==> lists[j] == front[j];
    forall i: nat | i < n ensures ListedFrom(lists, x, i) <==> x in DropNul(lists[n]) && ListedFrom(front, x, i) {
    }
    assert ListedFrom(lists, x, n) <==> x in DropNul(lists[n]) && !Ever(front, x);
  }

  /** From an empty record an owner is denied after any run of rounds exactly when it is on the list now
      and has been ever since it was first listed (the application is never on its own list). */
  lemma {:induction false} DeniedExactly(r: Round, did: Str, lists: seq<seq<Str>>, now: nat, owner: Str)
    requires owner in TableOf(r.apps, did) && !Denied(r.apps, did, owner) && Recorded(r.restrictions, did) == []
    requires !Ever(lists, did)
    ensures var after := Passes(r, did, lists, now);
            && owner in TableOf(after.apps, did)
            && (owner in Recorded(after.restrictions, did) <==> Ever(lists, owner))
            && did !in Recorded(after.restrictions, did)
            && (Denied(after.apps, did, owner) <==> Unbroken(lists, owner))
  {
    if lists == [] {
    } else {
      var n := |lists| - 1;
      var before := Passes(r, did, lists[..n], now);
      ListingSteps(lists, owner);
      ListingSteps(lists, did);
      DeniedExactly(r, did, lists[..n], now, owner);
      DisjointMembers(DropNul(lists[n]), Recorded(before.restrictions, did), did);
      PassDecides(before, did, lists[n], now, owner);
      RecordAfter(before, did, lists[n], now, owner);
      RecordAfter(before, did, lists[n], now, did);
    }
  }

  // ---------------------------------------------------------------- what a round leaves alone

  lemma {:induction false} BitsElsewhere(apps: Applications, did: Str, users: seq<Str>, perm: bool, now: nat, other: Str)
    requires other != did
    ensures TableOf(SetBits(apps, did, users, perm, now), other) == TableOf(apps, other)
  {
    if users == [] {
    } else {
      BitsElsewhere(apps, did, users[..|users| - 1], perm, now, other);
    }
  }

  /** A round for one application touches no other's tables, and keeps the record of every other except that
      of an application that goes by the name of a freed user. */
  lemma OtherApplications(r: Round, did: Str, listed: seq<Str>, now: nat, other: Str)
    requires other != did
    ensures TableOf(Pass(r, did, listed, now).apps, other) == TableOf(r.apps, other)
    ensures ListOf(Pass(r, did, listed, now).restrictions, other) ==
            if other in Recorded(r.restrictions, did) && other !in DropNul(listed) then [] else ListOf(r.restrictions, other)
  {
    var freed := Freed(r, did, listed);
    var blockers := Disjoint(Recorded(r.restrictions - Members(freed), did), DropNul(listed));
    DisjointMembers(DropNul(listed), Recorded(r.restrictions, did), other);
    BitsElsewhere(r.apps, did, freed, true, now, other);
    BitsElsewhere(SetBits(r.apps, did, freed, true, now), did, blockers, false, now, other);
  }

  lemma {:induction false} BitsStamped(apps: Applications, did: Str, users: seq<Str>, perm: bool, now: nat, owner: Str)
    requires owner in TableOf(apps, did)
    ensures owner in TableOf(SetBits(apps, did, users, perm, now), did)
    ensures TableOf(SetBits(apps, did, users, perm, now), did)[owner] ==
            if owner in users then apps[did][owner].(access := perm, accessTime := now) else apps[did][owner]
  {
    if users == [] {
    } else {
      var front, last := users[..|users| - 1], users[|users| - 1];
      BitsStamped(apps, did, front, perm, now, owner);
      assert users == front + [last];
    }
  }

  /** Of an owner's entry a round changes the access bit and its time alone, and these only for users that it
      frees or blocks, stamped with its clock. */
  lemma EntryAfterPass(r: Round, did: Str, listed: seq<Str>, now: nat, owner: Str)
    requires owner in TableOf(r.apps, did) && did !in Freed(r, did, listed)
    ensures owner in TableOf(Pass(r, did, listed, now).apps, did)
    ensures var recorded, users := owner in Recorded(r.restrictions, did), owner in DropNul(listed);
            TableOf(Pass(r, did, listed, now).apps, did)[owner] ==
            if recorded == users then r.apps[did][owner] else r.apps[did][owner].(access := recorded, accessTime := now)
  {
    var freed := Freed(r, did, listed);
    var restrictions := r.restrictions - Members(freed);
    var blockers := Disjoint(Recorded(restrictions, did), DropNul(listed));
    assert Recorded(restrictions, did) == Recorded(r.restrictions, did);
    DisjointMembers(DropNul(listed), Recorded(r.restrictions, did), owner);
    DisjointMembers(Recorded(restrictions, did), DropNul(listed), owner);
    BitsStamped(r.apps, did, freed, true, now, owner);
    BitsStamped(SetBits(r.apps, did, freed, true, now), did, blockers, false, now, owner);
  }

  // ---------------------------------------------------------------- from the contract to a reader

  lemma ListedIsRead(items: seq<Str>, text: Str, trailing: bool, user: Str)
    requires ListItems(items) && Texts(items) && Shows(text, EncodeList(items), trailing)
    requires user in items && user != [] && user != [0]
    ensures user in DropNul(ExtractDids(Parsed(text)))
  {
    BlockersRead(items, text, trailing);
    WithoutMembers(items, [], user);
    WithoutMembers(Without(items, []), [0], user);
  }

  /** A restriction that stands on the contract reaches the reader: after one pass over the scraped
      list, every access to the user's data through the application is refused, unless that user was already
      on record without being denied. */
  lemma RestrictionReachesReader(accounts: set<Str>, ops: seq<RestrictOp>, user: Str, app: Str,
                                 text: Str, trailing: bool, r: Round, now: nat)
    requires user in accounts && app in accounts && exists i: nat :: Stands(ops, i, user, app)
    requires var items := ListOf(RestrictRun(accounts, ops), app);
             ListItems(items) && Texts(items) && Shows(text, EncodeList(items), trailing)
    requires user in TableOf(r.apps, app) && user != [] && user != [0]
    ensures var after := Pass(r, app, ExtractDids(Parsed(text)), now).apps;
            Refusal(TableOf(after, app), user) == Some(AccessDenied) <==>
            user !in Remaining(r, app, ExtractDids(Parsed(text))) || Denied(r.apps, app, user)
  {
    RestrictionListExactly(accounts, ops, user, app);
    ListedIsRead(ListOf(RestrictRun(accounts, ops), app), text, trailing, user);
    PassDecides(r, app, ExtractDids(Parsed(text)), now, user);
  }
}
