/** The seen-message cache, the message cache and the pull exchange (database/src/network.rs).

    Both caches are bounded windows over the log of processed messages; the laws about runs are
    stated on that log. */
module Window {
  import opened Options
  import opened Text

  const MCACHE_LEN: nat := 890

  datatype Message = Message(topic: Str, id: Str, data: Str)
  type Topic = map<Str, Str>
  type Archive = map<Str, Topic>

  // ---------------------------------------------------------------- windows over a log

  function LastN<T>(s: seq<T>, n: nat): seq<T> {
    if |s| <= n then s else s[|s| - n..]
  }

  function Ids(log: seq<Message>): (ids: seq<Str>)
    ensures |ids| == |log| && forall i :: 0 <= i < |log| ==> ids[i] == log[i].id
  {
    seq(|log|, i requires 0 <= i < |log| => log[i].id)
  }

  function WindowOf(log: seq<Message>): seq<Str> { LastN(Ids(log), MCACHE_LEN) }

  function TopicIn(archive: Archive, topic: Str): Topic {
    if topic in archive then archive[topic] else map[]
  }

  function ArchiveOf(log: seq<Message>): Archive {
    if log == [] then map[]
    else
      var archive, m := ArchiveOf(log[..|log| - 1]), log[|log| - 1];
      archive[m.topic := TopicIn(archive, m.topic)[m.id := m.data]]
  }

  /** The Data arm: a message whose id is in the window is dropped. */
  function Process(log: seq<Message>, m: Message): seq<Message> {
    if m.id in WindowOf(log) then log else log + [m]
  }

  function ProcessAll(ms: seq<Message>): seq<Message> {
    if ms == [] then [] else Process(ProcessAll(ms[..|ms| - 1]), ms[|ms| - 1])
  }

  lemma Slide<T>(s: seq<T>, x: T, n: nat)
    requires n > 0
    ensures LastN(s + [x], n) == LastN(LastN(s, n) + [x], n)
    ensures LastN(s + [x], n) == (if |LastN(s, n)| >= n then LastN(s, n)[1..] else LastN(s, n)) + [x]
  {
  }

  lemma WindowSlides(log: seq<Message>, m: Message)
    ensures WindowOf(log + [m]) == LastN(WindowOf(log) + [m.id], MCACHE_LEN)
  {
    assert Ids(log + [m]) == Ids(log) + [m.id];
    Slide(Ids(log), m.id, MCACHE_LEN);
  }

  lemma InWindow(log: seq<Message>, i: nat)
    requires i < |log| && |log| - i <= MCACHE_LEN
    ensures log[i].id in WindowOf(log)
  {
    var w := WindowOf(log);
    assert w[i - (|log| - |w|)] == log[i].id;
  }

  /** A message is processed, at the end of the log, exactly when its id is not that of any of the last 890
      processings. */
  lemma ProcessedExactly(ms: seq<Message>, m: Message)
    ensures var log := ProcessAll(ms);
            ProcessAll(ms + [m]) ==
            if exists i :: 0 <= i < |log| && |log| - i <= 890 && log[i].id == m.id then log else log + [m]
  {
    var log := ProcessAll(ms);
    assert (ms + [m])[..|ms|] == ms;
    if m.id in WindowOf(log) {
      var k :| 0 <= k < |WindowOf(log)| && WindowOf(log)[k] == m.id;
      assert log[|log| - |WindowOf(log)| + k].id == m.id;
    }
    forall i: nat | i < |log| && |log| - i <= 890 ensures log[i].id in WindowOf(log) {
      InWindow(log, i);
    }
  }

  /** Two processings of one id have at least 890 other processings between them. */
  lemma {:induction false} AtMostOncePerWindow(ms: seq<Message>, i: nat, j: nat)
    requires i < j < |ProcessAll(ms)|
    requires ProcessAll(ms)[i].id == ProcessAll(ms)[j].id
    ensures j - i - 1 >= MCACHE_LEN
  {
    var log, m := ProcessAll(ms[..|ms| - 1]), ms[|ms| - 1];
    if j < |log| {
      AtMostOncePerWindow(ms[..|ms| - 1], i, j);
    } else {
      assert Ids(log)[i] == m.id;
      if |log| - i <= MCACHE_LEN {
        InWindow(log, i);
      }
    }
  }

  lemma WindowAt(log: seq<Message>, i: nat)
    requires i < |WindowOf(log)|
    ensures |WindowOf(log)| <= |log| && WindowOf(log)[i] == log[|log| - |WindowOf(log)| + i].id
  {
  }

  lemma WindowHasNoDuplicates(ms: seq<Message>, i: nat, j: nat)
    requires i < j < |WindowOf(ProcessAll(ms))|
    ensures WindowOf(ProcessAll(ms))[i] != WindowOf(ProcessAll(ms))[j]
  {
    var log := ProcessAll(ms);
    WindowAt(log, i);
    WindowAt(log, j);
    var base := |log| - |WindowOf(log)|;
    if log[base + i].id == log[base + j].id {
      AtMostOncePerWindow(ms, base + i, base + j);
    }
  }

  ghost predicate LastUnder(log: seq<Message>, i: nat, topic: Str, id: Str) {
    && i < |log| && log[i].topic == topic && log[i].id == id
    && forall j :: i < j < |log| ==> log[j].topic != topic || log[j].id != id
  }

  ghost predicate LastBytes(log: seq<Message>, topic: Str, id: Str, data: Str) {
    exists i: nat :: LastUnder(log, i, topic, id) && log[i].data == data
  }

  /** The archive never forgets: it holds the bytes of the latest processing under each topic. */
  lemma {:induction false} ArchiveFromLog(log: seq<Message>, topic: Str, id: Str, data: Str)
    ensures (id in TopicIn(ArchiveOf(log), topic) && TopicIn(ArchiveOf(log), topic)[id] == data)
            <==> LastBytes(log, topic, id, data)
  {
    if log == [] {
      assert forall i: nat :: !LastUnder(log, i, topic, id);
    } else {
      var n := |log| - 1;
      var h := log[..n];
      ArchiveFromLog(h, topic, id, data);
      assert forall i: nat :: i < n ==> h[i] == log[i];
      if log[n].topic == topic && log[n].id == id {
        assert LastUnder(log, n, topic, id);
      } else {
        forall i: nat ensures LastUnder(log, i, topic, id) <==> LastUnder(h, i, topic, id) {
          assert i < n && LastUnder(h, i, topic, id) ==> forall j :: i < j < |log| ==> j == n || log[j] == h[j];
          assert i < n && LastUnder(log, i, topic, id) ==> forall j :: i < j < n ==> h[j] == log[j];
        }
      }
    }
  }

  /** Every id in the window is archived under the topic it came with. */
  lemma {:induction false} WindowIsArchived(log: seq<Message>, i: nat)
    requires i < |log|
    ensures log[i].id in TopicIn(ArchiveOf(log), log[i].topic)
  {
    if i == |log| - 1 {
    } else {
      WindowIsArchived(log[..|log| - 1], i);
    }
  }

  // ---------------------------------------------------------------- advertising

  function Newest(ids: seq<Str>, k: nat): seq<Str> {
    if k == 0 || ids == [] then [] else [ids[|ids| - 1]] + Newest(ids[..|ids| - 1], k - 1)
  }

  lemma {:induction false} NewestAt(ids: seq<Str>, k: nat)
    ensures |Newest(ids, k)| == if k < |ids| then k else |ids|
    ensures forall i :: 0 <= i < |Newest(ids, k)| ==> Newest(ids, k)[i] == ids[|ids| - 1 - i]
  {
    if k == 0 || ids == [] {
    } else {
      NewestAt(ids[..|ids| - 1], k - 1);
    }
  }

  /** The ids advertised for a topic: the newest `k` of the window, newest first, that were ever
      processed under that topic. */
  function Advertised(log: seq<Message>, topic: Str, k: nat): seq<Str> {
    Filter(Newest(WindowOf(log), k), TopicIn(ArchiveOf(log), topic).Keys, true)
  }

  lemma AdvertisedFromLog(log: seq<Message>, topic: Str, k: nat, id: Str)
    ensures id in Advertised(log, topic, k) <==>
            && (exists i :: 0 <= i < |log| && |log| - i <= k && |log| - i <= MCACHE_LEN && log[i].id == id)
            && (exists i :: 0 <= i < |log| && log[i].id == id && log[i].topic == topic)
  {
    var newest, stored := Newest(WindowOf(log), k), TopicIn(ArchiveOf(log), topic).Keys;
    FilterMembers(newest, stored, true, id);
    NewestFromLog(log, k, id);
    ArchivedIff(log, topic, id);
  }

  lemma Mirror(picked: seq<nat>, n: nat) returns (at: seq<nat>)
    requires forall k :: 0 <= k < |picked| ==> picked[k] < n
    requires forall k, l :: 0 <= k < l < |picked| ==> picked[k] < picked[l]
    ensures |at| == |picked| && forall k :: 0 <= k < |at| ==> at[k] == n - 1 - picked[k]
    ensures forall k, l :: 0 <= k < l < |at| ==> at[k] > at[l]
    ensures forall i: nat :: i in at <==> i < n && n - 1 - i in picked
  {
    at := seq(|picked|, k requires 0 <= k < |picked| => n - 1 - picked[k]);
    forall i: nat | i < n && n - 1 - i in picked ensures i in at {
      var k :| 0 <= k < |picked| && picked[k] == n - 1 - i;
      assert at[k] == i;
    }
  }

  // `newest` is the end of `ids`, read backwards.
  lemma PickedFromEnd(newest: seq<Str>, ids: seq<Str>, stored: set<Str>) returns (at: seq<nat>)
    requires forall p :: 0 <= p < |newest| ==> p < |ids| && newest[p] == ids[|ids| - 1 - p]
    ensures |at| == |Filter(newest, stored, true)|
    ensures forall n :: 0 <= n < |at| ==> at[n] < |ids| && Filter(newest, stored, true)[n] == ids[at[n]]
    ensures forall n, p :: 0 <= n < p < |at| ==> at[n] > at[p]
    ensures forall i: nat :: i in at <==> i < |ids| && |ids| - i <= |newest| && ids[i] in stored
  {
    var picked := FilterPicks(newest, stored, true);
    at := Mirror(picked, |ids|);
    forall i: nat | i < |ids| ensures |ids| - 1 - i in picked <==> |ids| - i <= |newest| && ids[i] in stored {
      EndPosition(newest, ids, i);
    }
  }

  lemma EndPosition(newest: seq<Str>, ids: seq<Str>, i: nat)
    requires i < |ids| && forall p :: 0 <= p < |newest| ==> p < |ids| && newest[p] == ids[|ids| - 1 - p]
    ensures |ids| - i <= |newest| ==> newest[|ids| - 1 - i] == ids[i]
  {
  }

  /** And in which order: newest first, each position of the newest `k` in the window once. */
  lemma AdvertisedInOrder(log: seq<Message>, topic: Str, k: nat) returns (at: seq<nat>)
    ensures |at| == |Advertised(log, topic, k)|
    ensures forall n :: 0 <= n < |at| ==> at[n] < |log| && Advertised(log, topic, k)[n] == log[at[n]].id
    ensures forall n, p :: 0 <= n < p < |at| ==> at[n] > at[p]
    ensures forall i: nat :: i in at <==>
              i < |log| && |log| - i <= k && |log| - i <= MCACHE_LEN && log[i].id in TopicIn(ArchiveOf(log), topic)
  {
    var w, newest := WindowOf(log), Newest(WindowOf(log), k);
    NewestAt(w, k);
    assert forall p :: 0 <= p < |newest| ==> newest[p] == Ids(log)[|log| - 1 - p];
    at := PickedFromEnd(newest, Ids(log), TopicIn(ArchiveOf(log), topic).Keys);
  }

  lemma NewestFromLog(log: seq<Message>, k: nat, id: Str)
    ensures id in Newest(WindowOf(log), k) <==>
            exists i :: 0 <= i < |log| && |log| - i <= k && |log| - i <= MCACHE_LEN && log[i].id == id
  {
    var newest := Newest(WindowOf(log), k);
    NewestAt(WindowOf(log), k);
    assert forall p :: 0 <= p < |newest| ==> newest[p] == log[|log| - 1 - p].id;
    if i :| 0 <= i < |log| && |log| - i <= k && |log| - i <= MCACHE_LEN && log[i].id == id {
      assert newest[|log| - 1 - i] == id;
    }
    if id in newest {
      var p :| 0 <= p < |newest| && newest[p] == id;
      assert log[|log| - 1 - p].id == id;
    }
  }

  lemma {:induction false} ArchivedIff(log: seq<Message>, topic: Str, id: Str)
    ensures id in TopicIn(ArchiveOf(log), topic) <==> exists i :: 0 <= i < |log| && log[i].id == id && log[i].topic == topic
  {
    if log == [] {
    } else {
      var n := |log| - 1;
      ArchivedIff(log[..n], topic, id);
      assert forall i :: 0 <= i < n ==> log[..n][i] == log[i];
    }
  }

  // ---------------------------------------------------------------- the two caches

  class SeenMsgs {
    var msgs: seq<Str>

    ghost predicate Valid()
      reads this
    {
      |msgs| <= MCACHE_LEN
    }

    constructor ()
      ensures Valid() && msgs == []
    {
      msgs := [];
    }

    method AddData(data: Str)
      requires Valid()
      modifies this
      ensures Valid() && msgs == LastN(old(msgs) + [data], MCACHE_LEN)
    {
      if |msgs| >= MCACHE_LEN {
        msgs := msgs[1..];
      }
      msgs := msgs + [data];
    }

    predicate Contains(id: Str)
      reads this
    {
      id in msgs
    }
  }

  class MessageCache {
    var data: Archive
    var currentWindow: seq<Str>

    ghost predicate Valid()
      reads this
    {
      |currentWindow| <= MCACHE_LEN
    }

    constructor ()
      ensures Valid() && data == map[] && currentWindow == []
    {
      data, currentWindow := map[], [];
    }

    method Put(topic: Str, id: Str, message: Str)
      requires Valid()
      modifies this
      ensures Valid() && currentWindow == LastN(old(currentWindow) + [id], MCACHE_LEN)
      ensures data == old(data)[topic := TopicIn(old(data), topic)[id := message]]
    {
      var topicMap: Topic := if topic in data then data[topic] else map[];
      data := data[topic := topicMap[id := message]];
      currentWindow := currentWindow + [id];
      if |currentWindow| > MCACHE_LEN {
        currentWindow := currentWindow[1..];
      }
    }

    method Get(topic: Str, id: Str) returns (message: Option<Str>)
      ensures message == if id in TopicIn(data, topic) then Some(TopicIn(data, topic)[id]) else None
    {
      if topic in data {
        if id in data[topic] {
          return Some(data[topic][id]);
        } else {
          return None;
        }
      } else {
        return None;
      }
    }

    method GetGossipIds(topic: Str, k: nat) returns (result: seq<Str>)
      ensures result == Filter(Newest(currentWindow, k), TopicIn(data, topic).Keys, true)
    {
      result := [];
      ghost var examined := Newest(currentWindow, k);
      NewestAt(currentWindow, k);
      var n := if k < |currentWindow| then k else |currentWindow|;
      for i := 0 to n
        invariant result == Filter(examined[..i], TopicIn(data, topic).Keys, true)
      {
        var id := currentWindow[|currentWindow| - 1 - i];
        assert examined[..i + 1] == examined[..i] + [id];
        if topic in data {
          if id in data[topic] {
            result := result + [id];
          }
        }
      }
      assert examined[..n] == examined;
    }

    method Shift()
      modifies this
      ensures currentWindow == LastN(old(currentWindow), MCACHE_LEN) && data == old(data)
    {
      if |currentWindow| > MCACHE_LEN {
        currentWindow := currentWindow[|currentWindow| - MCACHE_LEN..];
      }
    }
  }

  // ---------------------------------------------------------------- the handlers that use them

  function Wanted(ids: seq<Str>, seen: seq<Str>, cached: Topic): seq<Str> {
    Filter(ids, Members(seen) + cached.Keys, false)
  }

  predicate Lists(order: seq<Str>, stored: Topic) {
    forall j :: 0 <= j < |order| ==> order[j] in stored
  }

  /** Bytes returned for a request: position `k` of the request is answered only when position `k` of
      the topic's iteration order happens to be the same id. */
  function Given(ids: seq<Str>, order: seq<Str>, stored: Topic): seq<Str>
    requires Lists(order, stored)
  {
    if ids == [] || order == [] then []
    else
      var n := (if |ids| < |order| then |ids| else |order|) - 1;
      var front := Given(ids[..n], order[..n], stored);
      if ids[n] == order[n] then front + [stored[order[n]]] else front
  }

  lemma {:induction false} GivenIsSound(ids: seq<Str>, order: seq<Str>, stored: Topic)
    requires Lists(order, stored)
    ensures |Given(ids, order, stored)| <= |ids| && |Given(ids, order, stored)| <= |order|
    ensures forall p :: p in Given(ids, order, stored) ==> exists id :: id in ids && id in stored && stored[id] == p
  {
    if ids == [] || order == [] {
    } else {
      var n := (if |ids| < |order| then |ids| else |order|) - 1;
      GivenIsSound(ids[..n], order[..n], stored);
      assert ids[n] in ids;
      assert forall id :: id in ids[..n] ==> id in ids;
    }
  }

  /** A request is answered in full exactly when it is a prefix of the iteration order. */
  lemma {:induction false} GivenInFullExactly(ids: seq<Str>, order: seq<Str>, stored: Topic)
    requires Lists(order, stored)
    ensures |Given(ids, order, stored)| == |ids| <==> ids <= order
    decreases |ids|
  {
    if ids == [] || order == [] {
    } else {
      var n := (if |ids| < |order| then |ids| else |order|) - 1;
      GivenIsSound(ids[..n], order[..n], stored);
      GivenInFullExactly(ids[..n], order[..n], stored);
      assert ids[..n + 1] == ids[..n] + [ids[n]] && order[..n + 1] == order[..n] + [order[n]];
      assert |ids| == n + 1 ==> ids[..n + 1] == ids;
    }
  }

  /** Payload `n` of the answer is for position `at[n]` of the request, and these increase. */
  ghost predicate GivenAt(given: seq<Str>, ids: seq<Str>, stored: Topic, at: seq<nat>) {
    && |at| == |given|
    && (forall n :: 0 <= n < |at| ==> at[n] < |ids| && ids[at[n]] in stored && given[n] == stored[ids[at[n]]])
    && (forall n, p :: 0 <= n < p < |at| ==> at[n] < at[p])
  }

  lemma GivenAtGrows(given: seq<Str>, ids: seq<Str>, n: nat, stored: Topic, at: seq<nat>)
    requires n < |ids| && GivenAt(given, ids[..n], stored, at)
    ensures GivenAt(given, ids, stored, at)
    ensures ids[n] in stored ==> GivenAt(given + [stored[ids[n]]], ids, stored, at + [n])
  {
    assert forall k :: 0 <= k < |at| ==> at[k] < n && ids[..n][at[k]] == ids[at[k]];
  }

  /** And which: the bytes of exactly the positions where request and iteration order agree, in order. */
  lemma {:induction false} GivenInOrder(ids: seq<Str>, order: seq<Str>, stored: Topic) returns (at: seq<nat>)
    requires Lists(order, stored)
    ensures GivenAt(Given(ids, order, stored), ids, stored, at)
    ensures forall i: nat :: i in at <==> i < |ids| && i < |order| && ids[i] == order[i]
    decreases |ids|
  {
    if ids == [] || order == [] {
      at := [];
    } else {
      var n := (if |ids| < |order| then |ids| else |order|) - 1;
      at := GivenInOrder(ids[..n], order[..n], stored);
      assert order[n] in stored;
      GivenAtGrows(Given(ids[..n], order[..n], stored), ids, n, stored, at);
      if ids[n] == order[n] {
        at := at + [n];
      }
    }
  }

  class RpcManager {
    const seen: SeenMsgs
    const cache: MessageCache
    ghost var log: seq<Message>

    /** Both windows and the archive are functions of the processing log. */
    ghost predicate Valid()
      reads this, seen, cache
    {
      && seen.Valid() && cache.Valid()
      && seen.msgs == WindowOf(log) == cache.currentWindow
      && cache.data == ArchiveOf(log)
    }

    constructor ()
      ensures Valid() && log == [] && fresh(seen) && fresh(cache)
    {
      seen := new SeenMsgs();
      cache := new MessageCache();
      log := [];
    }

    /** IHAVE for the metadata peers, if any are known; the cache is shifted afterwards. */
    method Advertise(topic: Str, id: Str, metadata: bool, k: nat) returns (ihave: Option<seq<Str>>)
      requires Valid()
      modifies cache
      ensures Valid()
      ensures ihave == if metadata then Some([id] + Advertised(log, topic, k)) else None
    {
      ihave := None;
      if metadata {
        var ids := cache.GetGossipIds(topic, k);
        ihave := Some([id] + ids);
      }
      cache.Shift();
    }

    /** The cache part of the Data arm. */
    method HandleData(topic: Str, id: Str, data: Str, metadata: bool, k: nat)
      returns (processed: bool, ihave: Option<seq<Str>>)
      requires Valid()
      modifies this, seen, cache
      ensures Valid() && log == Process(old(log), Message(topic, id, data))
      ensures processed <==> id !in WindowOf(old(log))
      ensures ihave == if processed && metadata then Some([id] + Advertised(log, topic, k)) else None
    {
      processed, ihave := false, None;
      if !seen.Contains(id) {
        processed := true;
        WindowSlides(log, Message(topic, id, data));
        seen.AddData(id);
        cache.Put(topic, id, data);
        log := log + [Message(topic, id, data)];
        ihave := Advertise(topic, id, metadata, k);
      }
    }

    /** IHAVE: the ids to ask for. */
    method HandleIHave(topic: Str, ids: seq<Str>) returns (iwant: seq<Str>)
      requires Valid()
      ensures iwant == Wanted(ids, WindowOf(log), TopicIn(ArchiveOf(log), topic))
    {
      iwant := [];
      for i := 0 to |ids|
        invariant iwant == Wanted(ids[..i], WindowOf(log), TopicIn(ArchiveOf(log), topic))
      {
        assert ids[..i + 1] == ids[..i] + [ids[i]];
        if !seen.Contains(ids[i]) {
          var cached := cache.Get(topic, ids[i]);
          if cached == None {
            iwant := iwant + [ids[i]];
          }
        }
      }
      assert ids[..|ids|] == ids;
    }

    /** IWANT: the bytes to return; `order` is the iteration order of the topic's hash map. */
    method HandleIWant(topic: Str, ids: seq<Str>, order: seq<Str>) returns (igive: Option<seq<Str>>)
      requires Valid()
      requires Lists(order, TopicIn(cache.data, topic))
      ensures var given := Given(ids, order, TopicIn(ArchiveOf(log), topic));
              igive == if given == [] then None else Some(given)
    {
      igive := None;
      if topic in cache.data {
        var topicData := cache.data[topic];
        var returned: seq<Str> := [];
        var n := if |ids| < |order| then |ids| else |order|;
        for i := 0 to n
          invariant returned == Given(ids[..i], order[..i], topicData)
        {
          assert ids[..i + 1][..i] == ids[..i] && order[..i + 1][..i] == order[..i];
          if ids[i] == order[i] {
            returned := returned + [topicData[order[i]]];
          }
        }
        GivenStopsEarly(ids, order, topicData, n);
        if |returned| > 0 {
          igive := Some(returned);
        }
      } else {
        FirstIsStored(order, TopicIn(cache.data, topic));
      }
    }
  }

  lemma FirstIsStored(order: seq<Str>, stored: Topic)
    requires Lists(order, stored)
    ensures order == [] || order[0] in stored
  {
  }

  lemma GivenStopsEarly(ids: seq<Str>, order: seq<Str>, stored: Topic, n: nat)
    requires Lists(order, stored)
    requires n == if |ids| < |order| then |ids| else |order|
    ensures Given(ids[..n], order[..n], stored) == Given(ids, order, stored)
  {
    if n > 0 {
      assert ids[..n][..n - 1] == ids[..n - 1] && order[..n][..n - 1] == order[..n - 1];
    }
  }

  // ---------------------------------------------------------------- the exchange as a whole

  /** The ids asked for are the advertised ones, as often as advertised, that were neither seen
      recently nor ever processed under the topic. */
  lemma WantedExactly(ids: seq<Str>, log: seq<Message>, topic: Str, id: Str)
    ensures multiset(Wanted(ids, WindowOf(log), TopicIn(ArchiveOf(log), topic)))[id] ==
            if id in WindowOf(log) || (exists i :: 0 <= i < |log| && log[i].id == id && log[i].topic == topic) then 0
            else multiset(ids)[id]
  {
    var cached := TopicIn(ArchiveOf(log), topic);
    FilterCounts(ids, Members(WindowOf(log)) + cached.Keys, false, id);
    ArchivedIff(log, topic, id);
  }

  ghost predicate New(log: seq<Message>, topic: Str, id: Str) {
    id !in WindowOf(log) && forall i :: 0 <= i < |log| && log[i].id == id ==> log[i].topic != topic
  }

  lemma WantedMember(ids: seq<Str>, log: seq<Message>, topic: Str, id: Str)
    ensures id in Wanted(ids, WindowOf(log), TopicIn(ArchiveOf(log), topic)) <==> id in ids && New(log, topic, id)
  {
    var wanted := Wanted(ids, WindowOf(log), TopicIn(ArchiveOf(log), topic));
    WantedExactly(ids, log, topic, id);
    assert id in wanted <==> multiset(wanted)[id] > 0;
    assert id in ids <==> multiset(ids)[id] > 0;
  }

  /** The request: the advertised positions that are new to the node, all of them, in their order. */
  lemma RequestedInOrder(ids: seq<Str>, log: seq<Message>, topic: Str) returns (at: seq<nat>)
    ensures Picks(Wanted(ids, WindowOf(log), TopicIn(ArchiveOf(log), topic)), ids, at)
    ensures forall i: nat :: i in at <==> i < |ids| && New(log, topic, ids[i])
  {
    var seen, cached := WindowOf(log), TopicIn(ArchiveOf(log), topic);
    at := FilterPicks(ids, Members(seen) + cached.Keys, false);
    forall i: nat | i < |ids| ensures ids[i] in Members(seen) + cached.Keys <==> !New(log, topic, ids[i]) {
      ArchivedIff(log, topic, ids[i]);
    }
  }

  /** Of two new ids the one offered first is asked for first. */
  lemma FirstOfferedFirst(ids: seq<Str>, log: seq<Message>, topic: Str, i: nat, j: nat) returns (k: nat, l: nat)
    requires i < j < |ids| && New(log, topic, ids[i]) && New(log, topic, ids[j])
    ensures var request := Wanted(ids, WindowOf(log), TopicIn(ArchiveOf(log), topic));
            k < l < |request| && request[k] == ids[i] && request[l] == ids[j]
  {
    var at := RequestedInOrder(ids, log, topic);
    k :| k < |at| && at[k] == i;
    l :| l < |at| && at[l] == j;
  }

  /** An offer of new ids only is asked for as it stands, and if it is a prefix of the responder's iteration
      order every payload comes back, in the order of the offer. */
  lemma NewOfferComesBack(asker: seq<Message>, responder: seq<Message>, topic: Str, offered: seq<Str>, order: seq<Str>, k: nat)
    requires forall i :: 0 <= i < |offered| ==> New(asker, topic, offered[i])
    requires Lists(order, TopicIn(ArchiveOf(responder), topic)) && offered <= order && k < |offered|
    ensures var request := Wanted(offered, WindowOf(asker), TopicIn(ArchiveOf(asker), topic));
            var given := Given(request, order, TopicIn(ArchiveOf(responder), topic));
            && request == offered && |given| == |offered|
            && LastBytes(responder, topic, offered[k], given[k])
  {
    var seen, cached, stored := WindowOf(asker), TopicIn(ArchiveOf(asker), topic), TopicIn(ArchiveOf(responder), topic);
    forall y | y in offered ensures y !in Members(seen) + cached.Keys {
      var i :| 0 <= i < |offered| && offered[i] == y;
      ArchivedIff(asker, topic, y);
    }
    FilterAll(offered, Members(seen) + cached.Keys, false);
    GivenWhole(offered, order, stored);
    ArchiveFromLog(responder, topic, offered[k], stored[offered[k]]);
  }

  lemma {:induction false} GivenWhole(ids: seq<Str>, order: seq<Str>, stored: Topic)
    requires Lists(order, stored) && ids <= order
    ensures |Given(ids, order, stored)| == |ids|
    ensures forall k :: 0 <= k < |ids| ==> ids[k] in stored && Given(ids, order, stored)[k] == stored[ids[k]]
  {
    if ids == [] {
    } else {
      var n := |ids| - 1;
      GivenWhole(ids[..n], order[..n], stored);
      assert ids[n] == order[n];
    }
  }

  /** Pull soundness: whatever the iteration order, every payload is what the responder last
      processed under the topic for an id that the requester was offered and did not have. */
  lemma PullIsSound(asker: seq<Message>, responder: seq<Message>, topic: Str, offered: seq<Str>, order: seq<Str>, p: Str)
    requires Lists(order, TopicIn(ArchiveOf(responder), topic))
    requires p in Given(Wanted(offered, WindowOf(asker), TopicIn(ArchiveOf(asker), topic)), order, TopicIn(ArchiveOf(responder), topic))
    ensures exists id :: id in offered && New(asker, topic, id) && LastBytes(responder, topic, id, p)
  {
    var ids := Wanted(offered, WindowOf(asker), TopicIn(ArchiveOf(asker), topic));
    var stored := TopicIn(ArchiveOf(responder), topic);
    GivenIsSound(ids, order, stored);
    var id :| id in ids && id in stored && stored[id] == p;
    WantedMember(offered, asker, topic, id);
    ArchiveFromLog(responder, topic, id, p);
    assert LastBytes(responder, topic, id, p);
  }
}
