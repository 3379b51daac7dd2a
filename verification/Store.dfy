/** The in-memory database of one node (database/src/prelude.rs): application -> owner -> entry.

    `DBState` is updated in place; the tables it holds are values, because every handler clones the
    table it works on and puts the changed copy back. The clock is an input of each operation. */
module Store {
  import opened Options
  import opened Text

  datatype DataUnit = DataUnit(data: Str, access: bool, writeTime: nat)
  type DataMap = map<Str, DataUnit>
  datatype HashTableData = HashTableData(did: Str, cid: Str, access: bool, data: DataMap, accessTime: nat)
  type HashTable = map<Str, HashTableData>
  type Applications = map<Str, HashTable>

  datatype CacheData = CacheData(samDid: Option<Str>, value: Str, writeTime: nat)
  type TempCache = map<Str, CacheData>

  datatype DBError = AccessDenied | EntryNotFound | InitializationError
  datatype Reply = Empty | Exists(found: bool) | Got(key: Str, value: Str) | Failed(error: DBError)

  datatype Kind = Access | Delete | Truncate | Write | Unknown
  datatype GossipEvent = GossipEvent(kind: Kind, did: Str, key: Str, value: Str, owner: Str, time: nat)

  /** `initialized` is the process-wide INITIALIZATION_COMPLETE flag. */
  datatype Db = Db(applications: Applications, cache: map<Str, TempCache>, initialized: bool)
  datatype Outcome = Outcome(db: Db, reply: Reply, published: Option<GossipEvent>)

  const U8_LIMIT: nat := 0x100
  const U64_LIMIT: nat := 0x1_0000_0000_0000_0000

  // ---------------------------------------------------------------- tables as values

  function TableOf(apps: Applications, did: Str): HashTable {
    if did in apps then apps[did] else map[]
  }

  function CacheOf(db: Db, did: Str): TempCache {
    if did in db.cache then db.cache[did] else map[]
  }

  function OwnerOf(did: Str, samDid: Option<Str>): Str { samDid.UnwrapOr(did) }

  function Put(entry: HashTableData, key: Str, value: Str, now: nat): HashTableData {
    entry.(data := entry.data[key := DataUnit(value, true, now)])
  }

  function NewEntry(owner: Str): HashTableData {
    HashTableData(owner, [], true, map[], 0)
  }

  function SetInTable(table: HashTable, owner: Str, key: Str, value: Str, now: nat): HashTable {
    table[owner := Put(if owner in table then table[owner] else NewEntry(owner), key, value, now)]
  }

  /** Why an owner's data may not be touched, if so. */
  function Refusal(table: HashTable, owner: Str): Option<DBError> {
    if table == map[] then Some(InitializationError)
    else if owner !in table then Some(EntryNotFound)
    else if !table[owner].access then Some(AccessDenied)
    else None
  }

  /** The unit an operation on (owner, key) may act on, or the error it reports. */
  function Admit(table: HashTable, owner: Str, key: Str): Option<DBError> {
    match Refusal(table, owner)
    case Some(e) => Some(e)
    case None =>
      if key !in table[owner].data then Some(EntryNotFound)
      else if !table[owner].data[key].access then Some(AccessDenied)
      else None
  }

  predicate Cached(db: Db, did: Str, samDid: Option<Str>, key: Str) {
    key in CacheOf(db, did) && CacheOf(db, did)[key].samDid == samDid
  }

  // ---------------------------------------------------------------- local operations

  function SetValue(db: Db, did: Str, samDid: Option<Str>, key: Str, value: Str, now: nat, stamp: nat): Outcome {
    if did !in db.applications then Outcome(db, Failed(InitializationError), None)
    else
      var owner := OwnerOf(did, samDid);
      var after :=
        if db.initialized then
          db.(applications := db.applications[did := SetInTable(db.applications[did], owner, key, value, stamp)])
        else
          db.(cache := db.cache[did := CacheOf(db, did)[key := CacheData(samDid, value, now)]]);
      Outcome(after, Empty, Some(GossipEvent(Write, did, key, value, owner, now)))
  }

  function GetValue(db: Db, did: Str, samDid: Option<Str>, key: Str): Reply {
    if Cached(db, did, samDid, key) then Got(key, CacheOf(db, did)[key].value)
    else
      var table, owner := TableOf(db.applications, did), OwnerOf(did, samDid);
      match Admit(table, owner, key)
      case Some(e) => Failed(e)
      case None => Got(key, table[owner].data[key].data)
  }

  function KeyExists(db: Db, did: Str, samDid: Option<Str>, key: Str): Reply {
    if Cached(db, did, samDid, key) then Exists(true)
    else
      match Admit(TableOf(db.applications, did), OwnerOf(did, samDid), key)
      case Some(EntryNotFound) => Exists(false)
      case Some(e) => Failed(e)
      case None => Exists(true)
  }

  function DelValue(db: Db, did: Str, samDid: Option<Str>, key: Str, now: nat): Outcome {
    if Cached(db, did, samDid, key) then
      Outcome(db.(cache := db.cache[did := CacheOf(db, did) - {key}]), Empty, None)
    else
      var table, owner := TableOf(db.applications, did), OwnerOf(did, samDid);
      match Admit(table, owner, key)
      case Some(e) => Outcome(db, Failed(e), None)
      case None =>
        var entry := table[owner].(data := table[owner].data - {key});
        Outcome(db.(applications := db.applications[did := table[owner := entry]]), Empty,
                Some(GossipEvent(Delete, did, key, [], owner, now)))
  }

  function TruncateKeys(db: Db, did: Str, samDid: Option<Str>, now: nat): Outcome {
    var table, owner := TableOf(db.applications, did), OwnerOf(did, samDid);
    match Refusal(table, owner)
    case Some(e) => Outcome(db, Failed(e), None)
    case None =>
      Outcome(db.(applications := db.applications[did := table[owner := table[owner].(data := map[])]]), Empty,
              Some(GossipEvent(Truncate, did, [], [], owner, now)))
  }

  /** Reports nothing to a caller; an unknown owner is ignored. */
  function ManageAccess(db: Db, did: Str, owner: Str, perm: bool, now: nat, sent: nat): Outcome {
    var table := TableOf(db.applications, did);
    if owner !in table then Outcome(db, Empty, None)
    else
      var entry := table[owner].(access := perm, accessTime := now);
      Outcome(db.(applications := db.applications[did := table[owner := entry]]), Empty,
              Some(GossipEvent(Access, did, PrintBool(perm), [], owner, sent)))
  }

  // ---------------------------------------------------------------- gossiped events

  function KindOf(tag: Str): Kind {
    match ParseOrZero(tag, U8_LIMIT)
    case 0 => Access
    case 1 => Delete
    case 2 => Truncate
    case 3 => Write
    case _ => Unknown
  }

  /** The write time a missing unit is compared as. */
  function StoredTime(cell: Option<DataUnit>): nat {
    match cell
    case Some(u) => u.writeTime
    case None => 0
  }

  function UnitIn(data: DataMap, key: Str): Option<DataUnit> {
    if key in data then Some(data[key]) else None
  }

  function Lookup(apps: Applications, did: Str, owner: Str, key: Str): Option<DataUnit> {
    var table := TableOf(apps, did);
    if owner in table then UnitIn(table[owner].data, key) else None
  }

  function EntryAfter(entry: HashTableData, ev: GossipEvent, now: nat): HashTableData {
    match ev.kind
    case Access =>
      if ev.time > entry.accessTime then entry.(access := ParseBool(ev.key), accessTime := now) else entry
    case Write =>
      if ev.time > StoredTime(UnitIn(entry.data, ev.key)) then Put(entry, ev.key, ev.value, now) else entry
    case Delete =>
      if ev.key in entry.data && ev.time > entry.data[ev.key].writeTime
      then entry.(data := entry.data - {ev.key}) else entry
    case Truncate =>
      entry.(data := map k | k in entry.data && entry.data[k].writeTime >= ev.time :: entry.data[k])
    case Unknown => entry
  }

  /** A Write for an unknown owner replaces the whole table; other events for one are ignored. */
  function TableAfter(table: HashTable, ev: GossipEvent, now: nat): HashTable {
    if ev.owner in table then table[ev.owner := EntryAfter(table[ev.owner], ev, now)]
    else if ev.kind == Write then map[ev.owner := Put(NewEntry(ev.owner), ev.key, ev.value, now)]
    else table
  }

  function Apply(apps: Applications, ev: GossipEvent, now: nat): Applications {
    apps[ev.did := TableAfter(TableOf(apps, ev.did), ev, now)]
  }

  function Receive(did: Str, key: Str, value: Str, owner: Str, time: Str, tag: Str): GossipEvent {
    GossipEvent(KindOf(tag), did, key, value, owner, ParseOrZero(time, U64_LIMIT))
  }

  // ---------------------------------------------------------------- the node's state

  class DBState {
    var applications: Applications
    var cache: map<Str, TempCache>
    var initialized: bool

    function View(): Db
      reads this
    {
      Db(applications, cache, initialized)
    }

    constructor ()
      ensures View() == Db(map[], map[], false)
    {
      applications, cache, initialized := map[], map[], false;
    }

    method SetDbValue(did: Str, samDid: Option<Str>, key: Str, value: Str, now: nat, stamp: nat)
      returns (reply: Reply, published: Option<GossipEvent>)
      modifies this
      ensures Outcome(View(), reply, published) == SetValue(old(View()), did, samDid, key, value, now, stamp)
    {
      if did !in applications {
        return Failed(InitializationError), None;
      }
      var ownerDid := samDid.UnwrapOr(did);
      if !initialized {
        var appCacheEntry: TempCache := if did in cache then cache[did] else map[];
        appCacheEntry := appCacheEntry[key := CacheData(samDid, value, now)];
        cache := cache[did := appCacheEntry];
      } else {
        var appData := applications[did];
        if ownerDid in appData {
          var data := appData[ownerDid];
          data := data.(data := data.data[key := DataUnit(value, true, stamp)]);
          appData := appData[ownerDid := data];
        } else {
          var htData := HashTableData(ownerDid, [], true, map[key := DataUnit(value, true, stamp)], 0);
          appData := appData[ownerDid := htData];
        }
        applications := applications[did := appData];
      }
      return Empty, Some(GossipEvent(Write, did, key, value, ownerDid, now));
    }

    method GetDbValue(did: Str, samDid: Option<Str>, key: Str) returns (reply: Reply)
      ensures reply == GetValue(View(), did, samDid, key)
    {
      if did in cache && key in cache[did] && cache[did][key].samDid == samDid {
        return Got(key, cache[did][key].value);
      }
      var hashtable := TableOf(applications, did);
      if |hashtable| > 0 {
        var ownerDid := samDid.UnwrapOr(did);
        if ownerDid in hashtable {
          var htData := hashtable[ownerDid];
          if htData.access {
            if key in htData.data {
              if htData.data[key].access {
                return Got(key, htData.data[key].data);
              } else {
                return Failed(AccessDenied);
              }
            } else {
              return Failed(EntryNotFound);
            }
          } else {
            return Failed(AccessDenied);
          }
        } else {
          return Failed(EntryNotFound);
        }
      } else {
        return Failed(InitializationError);
      }
    }

    method DelDbValue(did: Str, samDid: Option<Str>, key: Str, now: nat)
      returns (reply: Reply, published: Option<GossipEvent>)
      modifies this
      ensures Outcome(View(), reply, published) == DelValue(old(View()), did, samDid, key, now)
    {
      var appCache: TempCache := if did in cache then cache[did] else map[];
      if |appCache| > 0 {
        if key in appCache && appCache[key].samDid == samDid {
          cache := cache[did := appCache - {key}];
          return Empty, None;
        }
      }
      assert !Cached(View(), did, samDid, key);
      var hashtable := TableOf(applications, did);
      ghost var verdict := Admit(hashtable, OwnerOf(did, samDid), key);
      assert verdict.Some? ==> DelValue(View(), did, samDid, key, now) == Outcome(View(), Failed(verdict.value), None);
      if |hashtable| > 0 {
        var ownerDid := samDid.UnwrapOr(did);
        if ownerDid in hashtable {
          var htData := hashtable[ownerDid];
          if htData.access {
            if key in htData.data {
              if htData.data[key].access {
                var htEntry := htData.(data := htData.data - {key});
                hashtable := hashtable[ownerDid := htEntry];
                applications := applications[did := hashtable];
                return Empty, Some(GossipEvent(Delete, did, key, [], ownerDid, now));
              } else {
                return Failed(AccessDenied), None;
              }
            } else {
              return Failed(EntryNotFound), None;
            }
          } else {
            return Failed(AccessDenied), None;
          }
        } else {
          return Failed(EntryNotFound), None;
        }
      } else {
        return Failed(InitializationError), None;
      }
    }

    method CheckDbKeyExistence(did: Str, samDid: Option<Str>, key: Str) returns (reply: Reply)
      ensures reply == KeyExists(View(), did, samDid, key)
    {
      var appCache: TempCache := if did in cache then cache[did] else map[];
      if |appCache| > 0 {
        if key in appCache && appCache[key].samDid == samDid {
          return Exists(true);
        }
      }
      var hashtable := TableOf(applications, did);
      if |hashtable| > 0 {
        var ownerDid := samDid.UnwrapOr(did);
        if ownerDid in hashtable {
          if hashtable[ownerDid].access {
            var dataMap := hashtable[ownerDid].data;
            if key in dataMap {
              if dataMap[key].access {
                return Exists(true);
              } else {
                return Failed(AccessDenied);
              }
            } else {
              return Exists(false);
            }
          } else {
            return Failed(AccessDenied);
          }
        } else {
          return Exists(false);
        }
      } else {
        return Failed(InitializationError);
      }
    }

    method TruncateDbKeys(did: Str, samDid: Option<Str>, now: nat)
      returns (reply: Reply, published: Option<GossipEvent>)
      modifies this
      ensures Outcome(View(), reply, published) == TruncateKeys(old(View()), did, samDid, now)
    {
      var hashtable := TableOf(applications, did);
      if |hashtable| > 0 {
        var ownerDid := samDid.UnwrapOr(did);
        if ownerDid in hashtable {
          var htEntry := hashtable[ownerDid];
          if htEntry.access {
            htEntry := htEntry.(data := map[]);
            hashtable := hashtable[ownerDid := htEntry];
            applications := applications[did := hashtable];
            return Empty, Some(GossipEvent(Truncate, did, [], [], ownerDid, now));
          } else {
            return Failed(AccessDenied), None;
          }
        } else {
          return Failed(EntryNotFound), None;
        }
      } else {
        return Failed(InitializationError), None;
      }
    }

    method ManageDbAccess(did: Str, ownerDid: Str, perm: bool, now: nat, sent: nat)
      returns (published: Option<GossipEvent>)
      modifies this
      ensures Outcome(View(), Empty, published) == ManageAccess(old(View()), did, ownerDid, perm, now, sent)
    {
      published := None;
      var hashtable := TableOf(applications, did);
      if |hashtable| > 0 {
        if ownerDid in hashtable {
          var htData := hashtable[ownerDid].(access := perm, accessTime := now);
          hashtable := hashtable[ownerDid := htData];
          applications := applications[did := hashtable];
          published := Some(GossipEvent(Access, did, PrintBool(perm), [], ownerDid, sent));
        }
      }
    }

    /** `aborted` tells whether the handler ran into its `todo!()`. */
    method HandleGossipedData(did: Str, key: Str, value: Str, ownerDid: Str,
                              writeTime: Str, writeType: Str, now: nat)
      returns (aborted: bool)
      modifies this`applications
      ensures applications == Apply(old(applications), Receive(did, key, value, ownerDid, writeTime, writeType), now)
      ensures aborted <==> KindOf(writeType) == Unknown
    {
      if did !in applications {
        applications := applications[did := map[]];
      }
      var appData := applications[did];
      ghost var table := appData;
      assert applications == old(applications)[did := table] && table == TableOf(old(applications), did);
      assert ownerDid in table ==> table[ownerDid := table[ownerDid]] == table;
      var time := ParseOrZero(writeTime, U64_LIMIT);
      aborted := false;
      match KindOf(writeType) {
        case Access =>
          if ownerDid in appData && time > appData[ownerDid].accessTime {
            appData := appData[ownerDid := appData[ownerDid].(access := ParseBool(key), accessTime := now)];
            applications := applications[did := appData];
          }
        case Write =>
          if ownerDid in appData {
            var hashtable := appData[ownerDid];
            var dataUnit := if key in hashtable.data then hashtable.data[key] else DataUnit([], false, 0);
            if time > dataUnit.writeTime {
              var htable := hashtable.(data := hashtable.data[key := DataUnit(value, true, now)]);
              appData := appData[ownerDid := htable];
              applications := applications[did := appData];
            }
          } else {
            var htData := HashTableData(ownerDid, [], true, map[key := DataUnit(value, true, now)], 0);
            applications := applications[did := map[ownerDid := htData]];
          }
        case Delete =>
          if ownerDid in appData {
            var hashtable := appData[ownerDid];
            if key in hashtable.data && time > hashtable.data[key].writeTime {
              appData := appData[ownerDid := hashtable.(data := hashtable.data - {key})];
              applications := applications[did := appData];
            }
          }
        case Truncate =>
          if ownerDid in appData {
            var hashtable := appData[ownerDid];
            var kept := map k | k in hashtable.data && hashtable.data[k].writeTime >= time :: hashtable.data[k];
            appData := appData[ownerDid := hashtable.(data := kept)];
            applications := applications[did := appData];
          }
        case Unknown =>
          aborted := true;
      }
    }
  }
}
