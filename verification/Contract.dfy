/** The ink! contract's storage (database/contract/lib.rs). Account data other than existence is not
    needed here; byte vectors are `Str`. */
module Contract {
  import opened Options
  import opened Text

  const MAX_NODES: nat := 10
  const LIST_SEPARATOR: Str := [DOLLAR, DOLLAR, DOLLAR]

  datatype AccountInfo = AccountInfo(didDocumentUri: Str, hashtableCid: Str, authMaterial: Str)

  datatype ContractEvent =
    | AccountCreated(did: Str)
    | BootNodeAdded(address: Str)
    | BootNodeRemoved(address: Str)
    | EntryNotFound(entry: Str)
    | TopicSubscriptionComplete(did: Str, node: Str)
    | RestrictApplicationAccess(user: Str, app: Str)
    | UnrestrictApplicationAccess(user: Str, app: Str)

  type Lists = map<Str, seq<Str>>

  function ListOf(lists: Lists, did: Str): seq<Str> { if did in lists then lists[did] else [] }

  function Without(s: seq<Str>, x: Str): seq<Str> { Filter(s, {x}, false) }

  /** Every item followed by "$$$". */
  function EncodeList(items: seq<Str>): Str {
    if items == [] then [] else items[0] + LIST_SEPARATOR + EncodeList(items[1..])
  }

  lemma WithoutMembers(s: seq<Str>, x: Str, y: Str)
    ensures y in Without(s, x) <==> y in s && y != x
  {
    FilterMembers(s, {x}, false, y);
  }

  // ---------------------------------------------------------------- boot nodes

  datatype BootOp = Add(addr: Str) | Remove(addr: Str)

  function AddNode(nodes: seq<Str>, addr: Str): seq<Str> {
    if addr in nodes then nodes
    else (if |nodes| >= MAX_NODES then nodes[1..] else nodes) + [addr]
  }

  function BootStep(nodes: seq<Str>, op: BootOp): seq<Str> {
    match op
    case Add(a) => AddNode(nodes, a)
    case Remove(a) => Without(nodes, a)
  }

  function BootRun(nodes: seq<Str>, ops: seq<BootOp>): seq<Str>
    decreases ops
  {
    if ops == [] then nodes else BootRun(BootStep(nodes, ops[0]), ops[1..])
  }

  ghost predicate NoDuplicates(s: seq<Str>) {
    forall i, j :: 0 <= i < j < |s| ==> s[i] != s[j]
  }

  ghost predicate WellKept(nodes: seq<Str>) { |nodes| <= MAX_NODES && NoDuplicates(nodes) }

  lemma {:induction false} WithoutShrinks(s: seq<Str>, x: Str)
    ensures |Without(s, x)| <= |s|
    ensures NoDuplicates(s) ==> NoDuplicates(Without(s, x))
  {
    if s == [] {
    } else {
      var front, last := s[..|s| - 1], s[|s| - 1];
      WithoutShrinks(front, x);
      WithoutMembers(front, x, last);
      if NoDuplicates(s) {
        assert NoDuplicates(front) && last !in front;
      }
    }
  }

  /** At most ten boot nodes, never one twice, after any run of adds and removes. */
  lemma {:induction false} BootListIsWellKept(nodes: seq<Str>, ops: seq<BootOp>)
    requires WellKept(nodes)
    ensures WellKept(BootRun(nodes, ops))
    decreases ops
  {
    if ops == [] {
    } else {
      WithoutShrinks(nodes, ops[0].addr);
      BootListIsWellKept(BootStep(nodes, ops[0]), ops[1..]);
    }
  }

  /** Number of additions of a run that really put an address on the list. */
  function Additions(nodes: seq<Str>, ops: seq<BootOp>): nat
    decreases ops
  {
    if ops == [] then 0
    else (if ops[0].Add? && ops[0].addr !in nodes then 1 else 0) + Additions(BootStep(nodes, ops[0]), ops[1..])
  }

  /** How many addresses were put on the list after `a`. */
  function Behind(nodes: seq<Str>, a: Str): nat {
    if nodes == [] || nodes[|nodes| - 1] == a then 0 else 1 + Behind(nodes[..|nodes| - 1], a)
  }

  lemma {:induction false} BehindWithout(nodes: seq<Str>, a: Str, b: Str)
    requires a in nodes && a != b
    ensures Behind(Without(nodes, b), a) <= Behind(nodes, a)
  {
    var front, last := nodes[..|nodes| - 1], nodes[|nodes| - 1];
    var w := Without(front, b);
    if last != a {
      BehindWithout(front, a, b);
    }
    if last != b {
      assert (w + [last])[..|w|] == w && (w + [last])[|w|] == last;
    } else {
      assert Without(nodes, b) == w;
    }
  }

  lemma {:induction false} BehindInTail(nodes: seq<Str>, a: Str)
    requires a in nodes && NoDuplicates(nodes)
    ensures Behind(nodes, a) < |nodes|
    ensures Behind(nodes, a) < |nodes| - 1 <==> a in nodes[1..]
    ensures a in nodes[1..] ==> Behind(nodes[1..], a) == Behind(nodes, a)
  {
    var front, last := nodes[..|nodes| - 1], nodes[|nodes| - 1];
    if last != a {
      BehindInTail(front, a);
      assert nodes[1..] == front[1..] + [last];
      assert nodes[1..][..|nodes| - 2] == front[1..];
    } else if |nodes| > 1 {
      assert nodes[1..][|nodes| - 2] == a;
    }
  }

  lemma BehindAdded(nodes: seq<Str>, a: Str, b: Str)
    requires a in nodes && WellKept(nodes) && b !in nodes
    ensures a in AddNode(nodes, b) <==> |nodes| < MAX_NODES || Behind(nodes, a) + 1 < MAX_NODES
    ensures a in AddNode(nodes, b) ==> Behind(AddNode(nodes, b), a) == Behind(nodes, a) + 1
  {
    BehindInTail(nodes, a);
    var kept := if |nodes| >= MAX_NODES then nodes[1..] else nodes;
    assert (kept + [b])[..|kept|] == kept;
  }

  /** An address on the list stays there as long as it is not removed and fewer than ten addresses,
      counting those already behind it, have been put behind it: a freshly added one survives the
      next nine additions. */
  lemma {:induction false} AddressSurvives(nodes: seq<Str>, ops: seq<BootOp>, a: Str)
    requires WellKept(nodes) && a in nodes
    requires forall i :: 0 <= i < |ops| ==> ops[i] != Remove(a)
    requires Behind(nodes, a) + Additions(nodes, ops) < MAX_NODES
    ensures a in BootRun(nodes, ops)
    decreases ops
  {
    if ops == [] {
    } else {
      var next := BootStep(nodes, ops[0]);
      BootListIsWellKept(nodes, [ops[0]]);
      assert BootRun(nodes, [ops[0]]) == next;
      assert ops[0] != Remove(a);
      match ops[0] {
        case Add(b) =>
          if b !in nodes { BehindAdded(nodes, a, b); }
        case Remove(b) =>
          WithoutMembers(nodes, b, a);
          BehindWithout(nodes, a, b);
      }
      AddressSurvives(next, ops[1..], a);
    }
  }

  lemma {:induction false} GoneStaysGone(nodes: seq<Str>, ops: seq<BootOp>, a: Str)
    requires a !in nodes && forall i :: 0 <= i < |ops| ==> ops[i].Add? && ops[i].addr != a
    ensures a !in BootRun(nodes, ops)
    decreases ops
  {
    if ops == [] {
    } else {
      GoneStaysGone(BootStep(nodes, ops[0]), ops[1..], a);
    }
  }

  /** With nothing removed the bound is exact: the tenth addition behind an address evicts it. */
  lemma {:induction false} EvictedExactly(nodes: seq<Str>, ops: seq<BootOp>, a: Str)
    requires WellKept(nodes) && a in nodes
    requires forall i :: 0 <= i < |ops| ==> ops[i].Add? && ops[i].addr != a
    ensures a in BootRun(nodes, ops) <==> Behind(nodes, a) + Additions(nodes, ops) < MAX_NODES
    decreases ops
  {
    BehindInTail(nodes, a);
    if ops == [] {
    } else {
      var b, next := ops[0].addr, BootStep(nodes, ops[0]);
      BootListIsWellKept(nodes, [ops[0]]);
      assert BootRun(nodes, [ops[0]]) == next;
      if b !in nodes { BehindAdded(nodes, a, b); }
      if a in next {
        EvictedExactly(next, ops[1..], a);
      } else {
        GoneStaysGone(next, ops[1..], a);
      }
    }
  }

  /** Index of the last operation that really put `a` on the list, or -1. */
  function AddedAt(ops: seq<BootOp>, a: Str): int {
    if ops == [] then -1
    else
      var n := |ops| - 1;
      if ops[n] == Add(a) && a !in BootRun([], ops[..n]) then n else AddedAt(ops[..n], a)
  }

  lemma {:induction false} BootRunAppend(nodes: seq<Str>, ops: seq<BootOp>, op: BootOp)
    ensures BootRun(nodes, ops + [op]) == BootStep(BootRun(nodes, ops), op)
    decreases ops
  {
    if ops == [] {
      assert ops + [op] == [op];
    } else {
      assert (ops + [op])[1..] == ops[1..] + [op];
      BootRunAppend(BootStep(nodes, ops[0]), ops[1..], op);
    }
  }

  /** In the order of their stamps, all of them below `bound`. */
  ghost predicate OrderedBy(stamp: map<Str, int>, nodes: seq<Str>, bound: int) {
    && (forall i :: 0 <= i < |nodes| ==> nodes[i] in stamp && 0 <= stamp[nodes[i]] < bound)
    && (forall i, j :: 0 <= i < j < |nodes| ==> stamp[nodes[i]] < stamp[nodes[j]])
  }

  lemma {:induction false} WithoutOrdered(stamp: map<Str, int>, nodes: seq<Str>, x: Str, bound: int)
    requires OrderedBy(stamp, nodes, bound)
    ensures OrderedBy(stamp, Without(nodes, x), bound)
  {
    if nodes == [] {
    } else {
      var front, last := nodes[..|nodes| - 1], nodes[|nodes| - 1];
      WithoutOrdered(stamp, front, x, bound);
      var w := Without(front, x);
      forall i | 0 <= i < |w| ensures stamp[w[i]] < stamp[last] {
        WithoutMembers(front, x, w[i]);
        var k :| 0 <= k < |front| && front[k] == w[i];
        assert nodes[k] == front[k];
      }
    }
  }

  lemma AddOrdered(stamp: map<Str, int>, nodes: seq<Str>, a: Str, bound: nat)
    requires OrderedBy(stamp, nodes, bound) && a !in nodes
    ensures OrderedBy(stamp[a := bound], AddNode(nodes, a), bound + 1)
  {
    var after := AddNode(nodes, a);
    var kept := if |nodes| >= MAX_NODES then nodes[1..] else nodes;
    assert forall i :: 0 <= i < |kept| ==> kept[i] in nodes && kept[i] != a;
    assert forall i :: 0 <= i < |after| ==> after[i] == if i < |kept| then kept[i] else a;
  }

  /** When the addresses of a list were put on it. */
  ghost function Added(ops: seq<BootOp>, nodes: seq<Str>): map<Str, int> {
    map a | a in nodes :: AddedAt(ops, a)
  }

  lemma AddedLater(before: seq<BootOp>, op: BootOp, y: Str)
    ensures AddedAt(before + [op], y) ==
            if op == Add(y) && y !in BootRun([], before) then |before| else AddedAt(before, y)
  {
    assert (before + [op])[..|before|] == before;
  }

  lemma SteppedMember(nodes: seq<Str>, op: BootOp, y: Str)
    requires y in BootStep(nodes, op)
    ensures y in nodes || op == Add(y)
  {
    if op.Remove? {
      WithoutMembers(nodes, op.addr, y);
    }
  }

  // Stamps that keep the old members' and give a new one the next index.
  lemma StepOrdered(stamp: map<Str, int>, nodes: seq<Str>, op: BootOp, n: nat, later: map<Str, int>)
    requires OrderedBy(stamp, nodes, n)
    requires forall y :: y in BootStep(nodes, op) ==> y in later && (if y in nodes then y in stamp && later[y] == stamp[y] else later[y] == n)
    ensures OrderedBy(later, BootStep(nodes, op), n + 1)
  {
    var after, carried := BootStep(nodes, op), stamp;
    if op.Add? && op.addr !in nodes {
      AddOrdered(stamp, nodes, op.addr, n);
      carried := stamp[op.addr := n];
    } else if op.Remove? {
      WithoutOrdered(stamp, nodes, op.addr, n);
    }
    assert OrderedBy(carried, after, n + 1);
    forall y | y in after ensures y in carried && later[y] == carried[y] {
      SteppedMember(nodes, op, y);
    }
  }

  /** The list is in the order in which its addresses were put on it. */
  lemma {:induction false} BootListIsOrdered(ops: seq<BootOp>)
    ensures OrderedBy(Added(ops, BootRun([], ops)), BootRun([], ops), |ops|)
  {
    if ops == [] {
    } else {
      var before, op := ops[..|ops| - 1], ops[|ops| - 1];
      var nodes := BootRun([], before);
      BootListIsOrdered(before);
      BootRunAppend([], before, op);
      assert ops == before + [op];
      forall y | y in BootStep(nodes, op) ensures AddedAt(ops, y) == if y in nodes then AddedAt(before, y) else |before| {
        SteppedMember(nodes, op, y);
        AddedLater(before, op, y);
      }
      StepOrdered(Added(before, nodes), nodes, op, |before|, Added(ops, BootStep(nodes, op)));
    }
  }

  /** Operation `j` drops `a`, the oldest of ten, for another address. */
  ghost predicate Evicts(ops: seq<BootOp>, j: nat, a: Str)
    requires j < |ops|
  {
    var nodes := BootRun([], ops[..j]);
    ops[j].Add? && ops[j].addr !in nodes && |nodes| == 10 && nodes[0] == a
  }

  /** Addition `i` put `a` on the list or found it there, and it was neither removed nor dropped since. */
  ghost predicate Stays(ops: seq<BootOp>, i: nat, a: Str) {
    && i < |ops| && ops[i] == Add(a)
    && forall j :: i < j < |ops| ==> ops[j] != Remove(a) && !Evicts(ops, j, a)
  }

  lemma StaysSteps(ops: seq<BootOp>, i: nat, a: Str)
    requires ops != []
    ensures var n := |ops| - 1;
            Stays(ops, i, a) <==>
            || (i == n && ops[n] == Add(a))
            || (Stays(ops[..n], i, a) && ops[n] != Remove(a) && !Evicts(ops, n, a))
  {
    var n := |ops| - 1;
    assert forall j :: 0 <= j < n ==> ops[..n][j] == ops[j] && ops[..n][..j] == ops[..j];
  }

  lemma SomeStaysSteps(ops: seq<BootOp>, a: Str)
    requires ops != []
    ensures var n := |ops| - 1;
            (exists i: nat :: Stays(ops, i, a)) <==>
            || ops[n] == Add(a)
            || (ops[n] != Remove(a) && !Evicts(ops, n, a) && exists i: nat :: Stays(ops[..n], i, a))
  {
    var n := |ops| - 1;
    StaysSteps(ops, n, a);
    if i: nat :| Stays(ops[..n], i, a) {
      StaysSteps(ops, i, a);
    }
    if i: nat :| Stays(ops, i, a) {
      StaysSteps(ops, i, a);
    }
  }

  lemma MemberAfterStep(nodes: seq<Str>, op: BootOp, a: Str)
    requires WellKept(nodes)
    ensures a in BootStep(nodes, op) <==>
            || op == Add(a)
            || (a in nodes && op != Remove(a) && !(op.Add? && op.addr !in nodes && |nodes| == 10 && nodes[0] == a))
  {
    if op.Remove? {
      WithoutMembers(nodes, op.addr, a);
    } else if |nodes| == 10 {
      assert nodes == [nodes[0]] + nodes[1..];
    }
  }

  /** An address is on the list after any run exactly when some addition of it was followed by neither a
      removal of it nor by an addition that dropped it as the oldest of ten. */
  lemma {:induction false} BootMembersExactly(ops: seq<BootOp>, a: Str)
    ensures a in BootRun([], ops) <==> exists i: nat :: Stays(ops, i, a)
  {
    if ops == [] {
    } else {
      var n := |ops| - 1;
      BootMembersExactly(ops[..n], a);
      BootListIsWellKept([], ops[..n]);
      BootRunAppend([], ops[..n], ops[n]);
      assert ops == ops[..n] + [ops[n]];
      MemberAfterStep(BootRun([], ops[..n]), ops[n], a);
      SomeStaysSteps(ops, a);
    }
  }

  /** A removal leaves exactly the other addresses, in their order; `at` are their old positions. */
  lemma RemovalLeaves(nodes: seq<Str>, ops: seq<BootOp>, a: Str) returns (at: seq<nat>)
    ensures Picks(BootRun(nodes, ops + [Remove(a)]), BootRun(nodes, ops), at)
    ensures forall i: nat :: i in at <==> i < |BootRun(nodes, ops)| && BootRun(nodes, ops)[i] != a
  {
    BootRunAppend(nodes, ops, Remove(a));
    at := FilterPicks(BootRun(nodes, ops), {a}, false);
  }

  /** An addition of a new address leaves the ten newest of the list with it at the end; of a known one, the
      list as it is. */
  lemma AdditionLeaves(nodes: seq<Str>, ops: seq<BootOp>, a: Str)
    requires WellKept(nodes)
    ensures var before, after := BootRun(nodes, ops), BootRun(nodes, ops + [Add(a)]);
            && a in after
            && (a in before ==> after == before)
            && (a !in before ==> |after| == (if |before| < 10 then |before| + 1 else 10) && after == (before + [a])[|before| + 1 - |after|..])
  {
    BootRunAppend(nodes, ops, Add(a));
    BootListIsWellKept(nodes, ops);
  }

  // ---------------------------------------------------------------- subscribers

  datatype SubscribeOp = Subscribe(did: Str, addr: Str) | Unsubscribe(did: Str, addr: Str)

  function SubscribeStep(subscribers: Lists, op: SubscribeOp): Lists {
    match op
    case Subscribe(did, addr) =>
      if addr in ListOf(subscribers, did) then subscribers else subscribers[did := ListOf(subscribers, did) + [addr]]
    case Unsubscribe(did, addr) =>
      if did in subscribers then subscribers[did := Without(subscribers[did], addr)] else subscribers
  }

  function SubscribeRun(ops: seq<SubscribeOp>): Lists {
    if ops == [] then map[] else SubscribeStep(SubscribeRun(ops[..|ops| - 1]), ops[|ops| - 1])
  }

  /** Subscribed, and not unsubscribed since. */
  ghost predicate Subscribed(ops: seq<SubscribeOp>, did: Str, addr: Str) {
    ops != [] && (ops[|ops| - 1] == Subscribe(did, addr) ||
                  (ops[|ops| - 1] != Unsubscribe(did, addr) && Subscribed(ops[..|ops| - 1], did, addr)))
  }

  /** The subscribers of an application are the addresses subscribed and not unsubscribed since, each
      listed once however often it subscribed. */
  lemma {:induction false} SubscribersExactly(ops: seq<SubscribeOp>, did: Str, addr: Str)
    ensures addr in ListOf(SubscribeRun(ops), did) <==> Subscribed(ops, did, addr)
    ensures NoDuplicates(ListOf(SubscribeRun(ops), did))
  {
    if ops == [] {
    } else {
      var before := SubscribeRun(ops[..|ops| - 1]);
      SubscribersExactly(ops[..|ops| - 1], did, addr);
      WithoutMembers(ListOf(before, did), ops[|ops| - 1].addr, addr);
      WithoutShrinks(ListOf(before, did), ops[|ops| - 1].addr);
    }
  }

  /** The positions `picked` of `at`. */
  lemma Thinned(at: seq<nat>, picked: seq<nat>) returns (left: seq<nat>)
    requires forall k, l :: 0 <= k < l < |at| ==> at[k] < at[l]
    requires forall k, l :: 0 <= k < l < |picked| ==> picked[k] < picked[l]
    requires forall k :: 0 <= k < |picked| ==> picked[k] < |at|
    ensures |left| == |picked| && forall k :: 0 <= k < |left| ==> left[k] == at[picked[k]]
    ensures forall k, l :: 0 <= k < l < |left| ==> left[k] < left[l]
    ensures forall k :: 0 <= k < |at| ==> (at[k] in left <==> k in picked)
  {
    left := seq(|picked|, k requires 0 <= k < |picked| => at[picked[k]]);
    forall k: nat | k < |at| && k in picked ensures at[k] in left {
      var j :| 0 <= j < |picked| && picked[j] == k;
      assert left[j] == at[k];
    }
  }

  /** Subscription `i` put its address on the application's list, and it was not unsubscribed since. */
  ghost predicate Joined(ops: seq<SubscribeOp>, i: nat, did: Str) {
    && i < |ops| && ops[i].Subscribe? && ops[i].did == did && !Subscribed(ops[..i], did, ops[i].addr)
    && forall j :: i < j < |ops| ==> ops[j] != Unsubscribe(did, ops[i].addr)
  }

  lemma JoinedSteps(ops: seq<SubscribeOp>, i: nat, did: Str)
    requires ops != []
    ensures var n := |ops| - 1;
            Joined(ops, i, did) <==>
            || (i == n && ops[n].Subscribe? && ops[n].did == did && !Subscribed(ops[..n], did, ops[n].addr))
            || (Joined(ops[..n], i, did) && ops[n] != Unsubscribe(did, ops[i].addr))
  {
    var n := |ops| - 1;
    assert forall j :: 0 <= j < n ==> ops[..n][j] == ops[j] && ops[..n][..j] == ops[..j];
  }

  /** `list` has the addresses of the subscriptions `at`, in their order: all that put an address there. */
  ghost predicate JoinedAt(ops: seq<SubscribeOp>, did: Str, list: seq<Str>, at: seq<nat>) {
    && |at| == |list|
    && (forall k :: 0 <= k < |at| ==> Joined(ops, at[k], did) && list[k] == ops[at[k]].addr)
    && (forall k, l :: 0 <= k < l < |at| ==> at[k] < at[l])
    && (forall i: nat :: Joined(ops, i, did) ==> i in at)
  }

  lemma JoinedGrows(ops: seq<SubscribeOp>, did: Str, list: seq<Str>, at: seq<nat>)
    requires ops != [] && JoinedAt(ops[..|ops| - 1], did, list, at)
    requires ops[|ops| - 1].Subscribe? || ops[|ops| - 1].did != did
    ensures var n := |ops| - 1;
            if ops[n].did == did && !Subscribed(ops[..n], did, ops[n].addr)
            then JoinedAt(ops, did, list + [ops[n].addr], at + [n]) else JoinedAt(ops, did, list, at)
  {
    var n := |ops| - 1;
    forall i: nat ensures Joined(ops, i, did) <==>
                          || (i == n && ops[n].Subscribe? && ops[n].did == did && !Subscribed(ops[..n], did, ops[n].addr))
                          || Joined(ops[..n], i, did)
    {
      JoinedSteps(ops, i, did);
    }
  }

  lemma JoinedShrinks(ops: seq<SubscribeOp>, did: Str, list: seq<Str>, at: seq<nat>) returns (left: seq<nat>)
    requires ops != [] && JoinedAt(ops[..|ops| - 1], did, list, at)
    requires ops[|ops| - 1].Unsubscribe? && ops[|ops| - 1].did == did
    ensures JoinedAt(ops, did, Without(list, ops[|ops| - 1].addr), left)
  {
    var n := |ops| - 1;
    var picked := FilterPicks(list, {ops[n].addr}, false);
    left := Thinned(at, picked);
    forall i: nat ensures Joined(ops, i, did) <==> Joined(ops[..n], i, did) && ops[i].addr != ops[n].addr {
      JoinedSteps(ops, i, did);
    }
  }

  lemma ListAfterStep(r: Lists, op: SubscribeOp, did: Str)
    ensures var list := ListOf(r, did);
            ListOf(SubscribeStep(r, op), did) ==
            if op.did != did then list
            else if op.Unsubscribe? then Without(list, op.addr)
            else if op.addr in list then list else list + [op.addr]
  {
    WithoutNone(op.addr);
  }

  lemma WithoutNone(x: Str)
    ensures Without([], x) == []
  {
  }

  lemma JoinedStep(ops: seq<SubscribeOp>, did: Str, list: seq<Str>, before: seq<nat>) returns (at: seq<nat>)
    requires ops != [] && JoinedAt(ops[..|ops| - 1], did, list, before)
    requires ops[|ops| - 1].addr in list <==> Subscribed(ops[..|ops| - 1], did, ops[|ops| - 1].addr)
    ensures var op := ops[|ops| - 1];
            JoinedAt(ops, did,
                     if op.did != did then list
                     else if op.Unsubscribe? then Without(list, op.addr)
                     else if op.addr in list then list else list + [op.addr], at)
  {
    var op := ops[|ops| - 1];
    if op.Unsubscribe? && op.did == did {
      at := JoinedShrinks(ops, did, list, before);
    } else {
      JoinedGrows(ops, did, list, before);
      at := if op.did == did && op.addr !in list then before + [|ops| - 1] else before;
    }
  }

  /** The subscribers stand in the order of the subscriptions that put them there; `at` are these. */
  lemma {:induction false} SubscribersInOrder(ops: seq<SubscribeOp>, did: Str) returns (at: seq<nat>)
    ensures JoinedAt(ops, did, ListOf(SubscribeRun(ops), did), at)
  {
    if ops == [] {
      at := [];
    } else {
      var front, op := ops[..|ops| - 1], ops[|ops| - 1];
      at := SubscribersInOrder(front, did);
      SubscribersExactly(front, did, op.addr);
      at := JoinedStep(ops, did, ListOf(SubscribeRun(front), did), at);
      ListAfterStep(SubscribeRun(front), op, did);
    }
  }

  // ---------------------------------------------------------------- restrictions

  datatype RestrictOp = Restrict(user: Str, app: Str) | Unrestrict(user: Str, app: Str)

  function RestrictStep(accounts: set<Str>, restricted: Lists, op: RestrictOp): Lists {
    match op
    case Restrict(user, app) =>
      if user in accounts && app in accounts then restricted[app := ListOf(restricted, app) + [user]] else restricted
    case Unrestrict(user, app) =>
      if app in restricted then restricted[app := Without(restricted[app], user)] else restricted
  }

  function RestrictRun(accounts: set<Str>, ops: seq<RestrictOp>): Lists {
    if ops == [] then map[] else RestrictStep(accounts, RestrictRun(accounts, ops[..|ops| - 1]), ops[|ops| - 1])
  }

  ghost predicate Stands(ops: seq<RestrictOp>, i: nat, user: Str, app: Str) {
    && i < |ops| && ops[i] == Restrict(user, app)
    && forall j :: i < j < |ops| ==> ops[j] != Unrestrict(user, app)
  }

  lemma StandsSteps(ops: seq<RestrictOp>, user: Str, app: Str)
    requires ops != []
    ensures var before, op := ops[..|ops| - 1], ops[|ops| - 1];
            (exists i: nat :: Stands(ops, i, user, app)) <==>
            op == Restrict(user, app) || (op != Unrestrict(user, app) && exists i: nat :: Stands(before, i, user, app))
  {
    var n := |ops| - 1;
    var before := ops[..n];
    assert forall j :: 0 <= j < n ==> before[j] == ops[j];
    if ops[n] == Restrict(user, app) {
      assert Stands(ops, n, user, app);
    } else if ops[n] != Unrestrict(user, app) {
      if i: nat :| Stands(before, i, user, app) {
        assert Stands(ops, i, user, app);
      }
    }
    if i: nat :| Stands(ops, i, user, app) && i < n {
      assert Stands(before, i, user, app);
    }
  }

  lemma ListedAfterStep(accounts: set<Str>, r: Lists, op: RestrictOp, user: Str, app: Str)
    ensures user in ListOf(RestrictStep(accounts, r, op), app) <==>
            || (op == Restrict(user, app) && user in accounts && app in accounts)
            || (op != Unrestrict(user, app) && user in ListOf(r, app))
  {
    if op.Unrestrict? && op.app in r {
      WithoutMembers(r[op.app], op.user, user);
    }
  }

  /** A user is on an application's list exactly when both have accounts and the last operation about
      the pair restricts, however often it was restricted before. */
  lemma {:induction false} RestrictionListExactly(accounts: set<Str>, ops: seq<RestrictOp>, user: Str, app: Str)
    ensures user in ListOf(RestrictRun(accounts, ops), app) <==>
            user in accounts && app in accounts && exists i: nat :: Stands(ops, i, user, app)
  {
    if ops == [] {
    } else {
      var before, op := ops[..|ops| - 1], ops[|ops| - 1];
      RestrictionListExactly(accounts, before, user, app);
      StandsSteps(ops, user, app);
      ListedAfterStep(accounts, RestrictRun(accounts, before), op, user, app);
    }
  }

  /** Restriction `i` of the application counted, and was not lifted since. */
  ghost predicate Granted(accounts: set<Str>, ops: seq<RestrictOp>, i: nat, app: Str) {
    && i < |ops| && ops[i].Restrict? && ops[i].app == app && ops[i].user in accounts && app in accounts
    && Stands(ops, i, ops[i].user, app)
  }

  lemma GrantedSteps(accounts: set<Str>, ops: seq<RestrictOp>, i: nat, app: Str)
    requires ops != []
    ensures var n := |ops| - 1;
            Granted(accounts, ops, i, app) <==>
            || (i == n && ops[n].Restrict? && ops[n].app == app && ops[n].user in accounts && app in accounts)
            || (Granted(accounts, ops[..n], i, app) && ops[n] != Unrestrict(ops[i].user, app))
  {
    var n := |ops| - 1;
    assert forall j :: 0 <= j < n ==> ops[..n][j] == ops[j];
  }

  /** `list` has the users of the restrictions `at`, in their order: all that counted and stand. */
  ghost predicate GrantedAt(accounts: set<Str>, ops: seq<RestrictOp>, app: Str, list: seq<Str>, at: seq<nat>) {
    && |at| == |list|
    && (forall k :: 0 <= k < |at| ==> Granted(accounts, ops, at[k], app) && list[k] == ops[at[k]].user)
    && (forall k, l :: 0 <= k < l < |at| ==> at[k] < at[l])
    && (forall i: nat :: Granted(accounts, ops, i, app) ==> i in at)
  }

  lemma GrantedGrows(accounts: set<Str>, ops: seq<RestrictOp>, app: Str, list: seq<Str>, at: seq<nat>)
    requires ops != [] && GrantedAt(accounts, ops[..|ops| - 1], app, list, at)
    requires ops[|ops| - 1].Restrict? || ops[|ops| - 1].app != app
    ensures var n := |ops| - 1;
            if ops[n].app == app && ops[n].user in accounts && app in accounts
            then GrantedAt(accounts, ops, app, list + [ops[n].user], at + [n]) else GrantedAt(accounts, ops, app, list, at)
  {
    var n := |ops| - 1;
    forall i: nat ensures Granted(accounts, ops, i, app) <==>
                          || (i == n && ops[n].Restrict? && ops[n].app == app && ops[n].user in accounts && app in accounts)
                          || Granted(accounts, ops[..n], i, app)
    {
      GrantedSteps(accounts, ops, i, app);
    }
  }

  lemma GrantedShrinks(accounts: set<Str>, ops: seq<RestrictOp>, app: Str, list: seq<Str>, at: seq<nat>) returns (left: seq<nat>)
    requires ops != [] && GrantedAt(accounts, ops[..|ops| - 1], app, list, at)
    requires ops[|ops| - 1].Unrestrict? && ops[|ops| - 1].app == app
    ensures GrantedAt(accounts, ops, app, Without(list, ops[|ops| - 1].user), left)
  {
    var n := |ops| - 1;
    var picked := FilterPicks(list, {ops[n].user}, false);
    left := Thinned(at, picked);
    forall i: nat ensures Granted(accounts, ops, i, app) <==> Granted(accounts, ops[..n], i, app) && ops[i].user != ops[n].user {
      GrantedSteps(accounts, ops, i, app);
    }
  }

  /** The list has one entry for every restriction that counted and stands, in their order; `at` are these. */
  lemma {:induction false} RestrictionsInOrder(accounts: set<Str>, ops: seq<RestrictOp>, app: Str) returns (at: seq<nat>)
    ensures GrantedAt(accounts, ops, app, ListOf(RestrictRun(accounts, ops), app), at)
  {
    if ops == [] {
      at := [];
    } else {
      var n := |ops| - 1;
      var list := ListOf(RestrictRun(accounts, ops[..n]), app);
      at := RestrictionsInOrder(accounts, ops[..n], app);
      if ops[n].Unrestrict? && ops[n].app == app {
        at := GrantedShrinks(accounts, ops, app, list, at);
        WithoutNone(ops[n].user);
      } else {
        GrantedGrows(accounts, ops, app, list, at);
        at := if ops[n].app == app && ops[n].user in accounts && app in accounts then at + [n] else at;
      }
    }
  }

  // ---------------------------------------------------------------- the storage

  class DbContract {
    var nodes: seq<Str>
    var accounts: map<Str, AccountInfo>
    var subscribers: Lists
    var restricted: Lists

    constructor ()
      ensures nodes == [] && accounts == map[] && subscribers == map[] && restricted == map[]
    {
      nodes, accounts, subscribers, restricted := [], map[], map[], map[];
    }

    method NewAccount(did: Str, hashtableCid: Str, authMaterial: Str) returns (event: ContractEvent)
      modifies this`accounts
      ensures accounts == old(accounts)[did := AccountInfo([], hashtableCid, authMaterial)] && event == AccountCreated(did)
    {
      accounts := accounts[did := AccountInfo([], hashtableCid, authMaterial)];
      event := AccountCreated(did);
    }

    method AddAddress(addr: Str) returns (event: ContractEvent)
      modifies this`nodes
      ensures nodes == BootStep(old(nodes), Add(addr))
      ensures event == if addr in old(nodes) then EntryNotFound(addr) else BootNodeAdded(addr)
    {
      if addr !in nodes {
        if |nodes| >= 10 {
          nodes := nodes[1..];
        }
        nodes := nodes + [addr];
        event := BootNodeAdded(addr);
      } else {
        event := EntryNotFound(addr);
      }
    }

    method RemoveAddress(addr: Str) returns (event: ContractEvent)
      modifies this`nodes
      ensures nodes == BootStep(old(nodes), Remove(addr))
      ensures event == if addr in old(nodes) then BootNodeRemoved(addr) else EntryNotFound(addr)
    {
      if addr in nodes {
        nodes := Without(nodes, addr);
        event := BootNodeRemoved(addr);
      } else {
        WithoutAbsent(nodes, addr);
        event := EntryNotFound(addr);
      }
    }

    method SubscribeNode(did: Str, addr: Str) returns (event: ContractEvent)
      modifies this`subscribers
      ensures subscribers == SubscribeStep(old(subscribers), Subscribe(did, addr))
      ensures event == TopicSubscriptionComplete(did, addr)
    {
      if did in subscribers {
        if addr !in subscribers[did] {
          subscribers := subscribers[did := subscribers[did] + [addr]];
        }
      } else {
        subscribers := subscribers[did := [addr]];
        assert [] + [addr] == [addr];
      }
      event := TopicSubscriptionComplete(did, addr);
    }

    method UnsubscribeNode(did: Str, address: Str) returns (event: Option<ContractEvent>)
      modifies this`subscribers
      ensures subscribers == SubscribeStep(old(subscribers), Unsubscribe(did, address))
      ensures event == if did in old(subscribers) then Some(TopicSubscriptionComplete(did, address)) else None
    {
      event := None;
      if did in subscribers {
        subscribers := subscribers[did := Without(subscribers[did], address)];
        event := Some(TopicSubscriptionComplete(did, address));
      }
    }

    method RestrictApp(userDid: Str, appDid: Str) returns (event: ContractEvent)
      modifies this`restricted
      ensures restricted == RestrictStep(accounts.Keys, old(restricted), Restrict(userDid, appDid))
      ensures event == if userDid !in accounts then EntryNotFound(userDid)
                       else if appDid !in accounts then EntryNotFound(appDid)
                       else RestrictApplicationAccess(userDid, appDid)
    {
      if userDid in accounts {
        if appDid in accounts {
          var usersList := if appDid in restricted then restricted[appDid] + [userDid] else [userDid];
          assert usersList == ListOf(restricted, appDid) + [userDid];
          restricted := restricted[appDid := usersList];
          event := RestrictApplicationAccess(userDid, appDid);
        } else {
          event := EntryNotFound(appDid);
        }
      } else {
        event := EntryNotFound(userDid);
      }
    }

    method UnrestrictApp(userDid: Str, appDid: Str) returns (event: ContractEvent)
      modifies this`restricted
      ensures restricted == RestrictStep(accounts.Keys, old(restricted), Unrestrict(userDid, appDid))
      ensures event == if appDid in old(restricted) then UnrestrictApplicationAccess(userDid, appDid) else EntryNotFound(appDid)
    {
      if appDid in restricted {
        restricted := restricted[appDid := Without(restricted[appDid], userDid)];
        event := UnrestrictApplicationAccess(userDid, appDid);
      } else {
        event := EntryNotFound(appDid);
      }
    }

    function GetNodeAddresses(): Str
      reads this
    {
      EncodeList(nodes)
    }

    function GetSubscribers(did: Str): Str
      reads this
    {
      EncodeList(ListOf(subscribers, did))
    }

    function GetRestrictionList(appDid: Str): Str
      reads this
    {
      EncodeList(ListOf(restricted, appDid))
    }
  }

  lemma {:induction false} WithoutAbsent(s: seq<Str>, x: Str)
    requires x !in s
    ensures Without(s, x) == s
  {
    if s == [] {
    } else {
      WithoutAbsent(s[..|s| - 1], x);
      assert s == s[..|s| - 1] + [s[|s| - 1]];
    }
  }
}
