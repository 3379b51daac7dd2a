# SamaritanDB in Dafny

SamaritanDB is a replicated key-value store: nodes gossip timestamped writes, pass a token ("ball")
that says who publishes an application's data image, exchange missed messages, and follow access
restrictions kept on an ink! contract. This project models the state machines inside it and proves
what they guarantee over whole runs, without the transport. `dafny verify dfyconfig.toml` checks it.

Objects that the program updates in place (`DBState`, `SeenMsgs`, `MessageCache`, the RPC manager,
`IPFSManager`, `DataAccessManager`, `DbContract`) are classes; each method is proved equal to a small
function on values, and the laws are lemmas about runs of those functions. The tables inside `DBState`
are values, because the handlers clone a table, change the clone and put it back. Strings are their
UTF-8 bytes. Clocks, the iteration order of hash maps and the text printed by the contract client are
inputs. `Instant` arithmetic is in nanoseconds and saturates at zero.

| file | what it holds |
|---|---|
| `Text.dfy` | splitting at the leftmost separator, numbers as text, UTF-8 validity |
| `Store.dfy` | one node's database: local operations, temporary cache, gossiped events |
| `History.dfy` | the nested maps answer what the log of local operations says |
| `Convergence.dfy` | runs of gossiped events: projection, which write wins, redelivery |
| `Mixed.dfy` | runs that mix gossiped events with the node's own clients |
| `GossipCodec.dfy` | the nine-field gossip message |
| `Window.dfy` | seen cache, message cache, IHAVE / IWANT / IGIVE |
| `Network.dfy` | window, codec and replica together, on arbitrary incoming messages of every kind |
| `Ball.dfy` | the sync token over n nodes with queues, packets in flight, losses and take-overs |
| `Takeover.dfy` | the same network in real time, with names and timers: who takes over and when |
| `Stranding.dfy` | when nobody holds the token: who brings it back, and when it is lost for good |
| `Contract.dfy` | the contract's lists over runs of calls |
| `ContractCodec.dfy` | from the contract's lists through the client's text to the node |
| `Reconcile.dfy` | the loop that aligns access bits with the contract |

## Where the code and its documentation part

- The project's README (line 109) promises consistency "based on timestamps". An accepted write is
  stamped with the receiver's clock, so two replicas can keep different values of the same two writes
  (`ReplicasCanDiverge`), and a removal keeps no tombstone. `WinnerExactly`, `NewerWriteWinsExactly` and
  `RemovalPrevailsExactly` give the exact conditions under which the promise holds.
- It says (line 117) that the token "can only be lost when all nodes are down". A node whose only listener
  has gone down hands over to nobody after seven SYNCs, stays up, and never takes the token again on its own
  (`TokenCanBeLost`). `StrandedExactly`, `StrandedForever` and `TokenReturns` say exactly when a token that
  nobody holds is lost: when no live node was ever sent a SYNC; otherwise it returns within a stated time.
  `TokenSurvives` says that before the first hand-over conflict resolution never loses it.
- It says (line 101) that an address is added to the contract if fewer than ten are there. The contract
  instead drops the oldest of ten (`EvictedExactly`).
- A restriction lifted and imposed again is never enforced again (`BlockedAgainIsMissed`), because the
  freed user stays on the node's record; `DeniedExactly` says which owners are denied after any run.
- An empty or comma-terminated list read from the contract contains a stray NUL item, so an application
  with no subscriber looks like one with a single subscriber (`AloneExactly`).

## Model

| member | source | states |
|---|---|---|
| Store.DBState.SetDbValue | database/src/prelude.rs:1157-1270 | a set needs a hosted application, goes to the table or, during initialization, to the cache, ignores the access bit, and is published with the earlier clock reading |
| Store.DBState.GetDbValue | database/src/prelude.rs:1273-1361 | the cache is asked first, then the table, with the source's errors in the source's order |
| Store.DBState.DelDbValue | database/src/prelude.rs:1364-1491 | a cached value is removed silently; a table entry only when owner and unit are accessible, and only then published |
| Store.DBState.CheckDbKeyExistence | database/src/prelude.rs:1494-1582 | existence, with a missing owner or key reported as absent rather than as an error |
| Store.DBState.TruncateDbKeys | database/src/prelude.rs:1643-1721 | empties an accessible owner's entry and publishes it, otherwise changes nothing |
| Store.DBState.ManageDbAccess | database/src/prelude.rs:1771-1827 | sets a present owner's bit and time and publishes it; anything else is ignored |
| Store.DBState.HandleGossipedData | database/src/prelude.rs:986-1117 | the new tables are `Apply` of the event read from the six texts, an unknown owner's write replaces the table, and an unknown kind aborts |
| History.StoreRefinesLog | database/src/prelude.rs:1198-1246 | for every log of operations, a cell holds a unit if and only if it is the last set, or the initial unit, not followed by an effective removal |
| History.OwnersFromLog | database/src/prelude.rs:1786-1797 | an owner is present if and only if it was initially or was set, and its bit is the last access change made while it was present |
| History.GetFromLog | database/src/prelude.rs:1297-1361 | after every run, get's value and each of its errors if and only if the log says so |
| History.SetFromLog | database/src/prelude.rs:1167-1270 | after every run a set succeeds if and only if the application is hosted; then it stores with the later clock reading, publishes for the named owner or the application with the earlier one, and is read back unless the owner was there and denied; a refused one is silent |
| History.AccessFromLog | database/src/prelude.rs:1771-1827 | an access change takes effect and is published if and only if the owner is known, and changes only the bit and its time |
| History.ExistsAgreesWithGet | database/src/prelude.rs:1500-1582 | exists is true exactly when get succeeds and false exactly when get finds nothing, in every state |
| History.RemovalsFromLog | database/src/prelude.rs:1404-1491 | del and truncate succeed and are published exactly when the log makes them effective; refused ones change and publish nothing |
| History.CacheRefinesLog | database/src/prelude.rs:1180-1197 | while the node initializes, the temporary cache holds exactly the last set of each key, whoever's, that its own owner has not deleted since |
| History.EarlyGet | database/src/prelude.rs:1276-1296 | meanwhile get answers that set to its own owner, and otherwise what the table says |
| History.EarlySet | database/src/prelude.rs:1167-1197 | meanwhile a set succeeds if and only if the application is hosted, is published at once, stays out of the tables and is read back |
| History.EarlyDel | database/src/prelude.rs:1372-1394 | meanwhile a del by the live set's owner clears the cache, touches no table and tells no peer; any other del, and any truncate, acts on the tables alone |
| Convergence.Projection | database/src/prelude.rs:1015-1113 | over any run whose owners are present, each cell is the replay of its own writes and deletes and its owner's truncates, and no owner comes or goes |
| Convergence.AccessProjection | database/src/prelude.rs:1016-1031 | an owner's access bit and its time depend only on that owner's access events |
| Convergence.NewerAccessWinsExactly | database/src/prelude.rs:1016-1031 | the newer of two access events wins in both orders if and only if it is newer than the clock at which the older one came first; only "true" allows |
| Mixed.Projection | database/src/prelude.rs:1015-1582 | in any run that mixes gossip with local operations, a cell is the replay of its own gossip, its local sets and the local removals made while its owner's bit was on, and the bit is the owner's own access changes |
| Mixed.WriteWins | database/src/prelude.rs:1032-1112 | a gossiped write newer than everything stored before it, by clients or gossip, and followed by nothing newer and no client, decides the cell of the whole replica |
| Mixed.SetStands | database/src/prelude.rs:1198-1246 | a client's set stays until something newer than it is gossiped or a client touches the key |
| Convergence.WinnerExactly | database/src/prelude.rs:1042-1054 | a latest write received no earlier than its time decides the cell if and only if its time beats the stamp stored at its receipt |
| Convergence.OrderIndependentWinner | database/src/prelude.rs:1032-1112 | a write above the stored time and every earlier local clock, with nothing newer, wins in any delivery order with any mix of events |
| Convergence.ReplicasAgree | database/src/prelude.rs:1032-1112 | two replicas with arbitrary interleavings over all owners end with the same value where the same write prevails in both |
| Convergence.NewerWriteWinsExactly | database/src/prelude.rs:112-125 | the newer of two writes wins in both orders if and only if it is newer than the clock at which the older one came first |
| Convergence.ReplicasCanDiverge | database/src/prelude.rs:1043-1046 | from any tables that have the owner but not the key, the same two writes in opposite orders leave two replicas with different values |
| Convergence.RemovalPrevailsExactly | database/src/prelude.rs:1084-1112 | after an accepted removal an older late write brings the key back unless its time is zero |
| Convergence.RemovalTakesExactly | database/src/prelude.rs:1084-1112 | a gossiped delete or truncate takes exactly the units stamped before it |
| Convergence.ReplacingWrite | database/src/prelude.rs:1055-1082 | a write for an owner the application lacks leaves that owner alone in it, stamped by the receiver's clock; any event makes its application hosted and touches no other |
| Convergence.ReplayIdempotence | database/src/prelude.rs:1032-1054 | redelivering already handled writes, in any number and order and at any clock, changes nothing anywhere |
| Convergence.ReplayExactly | database/src/prelude.rs:112-125 | redelivering one write is harmless if and only if it was refused, or stamped no earlier than its time, or comes within the same clock reading |
| GossipCodec.RoundTripExactly | database/src/network.rs:1327-1327 | formatting then splitting gives the nine fields back if and only if the six texts contain no "$$" and do not end in "$" |
| GossipCodec.FieldsArrive | database/src/network.rs:892-919 | the receiver reads the sender's kind, time and texts out of the fields |
| GossipCodec.ReadOfFormat | database/src/network.rs:738-759 | on the gossip and on the pull path alike the receiver applies the published event |
| GossipCodec.KindExactly | database/src/prelude.rs:995-1013 | which tags mean which kind: numerals of 1, 2, 3, from 4 on unknown, and anything else an access change |
| GossipCodec.ReadExactly | database/src/network.rs:738-764 | of any sound fields on either path: when too few, and when an event |
| GossipCodec.EventExactly | database/src/network.rs:758-759 | and which event: the kind by its tag, and a time that is no 64-bit number as zero |
| GossipCodec.AccessReadsBack | database/src/network.rs:1597-1612 | a published access change reads back as the same permission, owner and time |
| GossipCodec.RemoteReadAfterSet | database/src/network.rs:1318-1331 | a value set on one node is read on any other after its message is handled if and only if the reader lacks the owner, or has it accessible with an older stamp or the same value |
| Window.SeenMsgs.AddData | database/src/network.rs:372-381 | the deque becomes the last 890 ids |
| Window.MessageCache.Put | database/src/network.rs:398-407 | the window becomes the last 890 ids and the bytes are archived under the topic |
| Window.MessageCache.Get | database/src/network.rs:410-416 | the bytes archived under topic and id, if any |
| Window.MessageCache.GetGossipIds | database/src/network.rs:420-431 | the newest k window ids that the topic knows, newest first |
| Window.MessageCache.Shift | database/src/network.rs:434-439 | trims to the last 890 ids, so under the class invariant it removes nothing |
| Window.RpcManager.Advertise | database/src/network.rs:2424-2439 | offers the message's id and the newest k of the topic to metadata peers, and leaves both windows as they are |
| Window.RpcManager.HandleData | database/src/network.rs:914-931 | a message outside the window is logged once; both windows and the archive stay functions of the log; the advertisement is the new id and the newest k of the topic |
| Window.RpcManager.HandleIHave | database/src/network.rs:661-692 | the ids asked for are the advertised ones neither seen nor cached, in order |
| Window.RpcManager.HandleIWant | database/src/network.rs:844-873 | for every iteration order, the bytes whose position in the request and in that order carry the same id |
| Window.ProcessedExactly | database/src/network.rs:912-925 | a message is processed if and only if its id is not that of any of the last 890 processings |
| Window.AtMostOncePerWindow | database/src/network.rs:912-925 | in every run two processings of one id have at least 890 others between them |
| Window.WindowHasNoDuplicates | database/src/network.rs:364-387 | in every reachable state the window holds no id twice |
| Window.ArchiveFromLog | database/src/network.rs:398-407 | the archive holds exactly the bytes of the latest processing of each id under each topic |
| Window.WindowIsArchived | database/src/network.rs:922-925 | every processed id, so every window id, is archived under its topic |
| Window.AdvertisedFromLog | database/src/network.rs:420-431 | an id is advertised if and only if it is among the newest k processed ones still in the window and was processed under the topic |
| Window.AdvertisedInOrder | database/src/network.rs:420-431 | and newest first, each position of the log once |
| Window.GivenInFullExactly | database/src/network.rs:847-853 | a request is answered in full if and only if it is a prefix of the iteration order |
| Window.GivenInOrder | database/src/network.rs:847-853 | an answer has the bytes of exactly the positions where request and iteration order agree, in order |
| Window.WantedExactly | database/src/network.rs:668-678 | each id is asked for as often as advertised unless it is in the window or was processed under the topic, then never |
| Window.RequestedInOrder | database/src/network.rs:668-678 | a request is the advertised positions that are new to the node, all of them, in their order |
| Window.FirstOfferedFirst | database/src/network.rs:668-678 | of two new ids the one offered first is asked for first |
| Window.NewOfferComesBack | database/src/network.rs:844-873 | an offer of new ids only is asked for as it stands, and comes back in full and in order if it is a prefix of the responder's iteration order |
| Window.PullIsSound | database/src/network.rs:844-873 | every payload is what the responder last processed for an id that the requester was offered and did not have |
| Network.NetworkClient.HandleGossip | database/src/network.rs:883-1084 | for messages of every kind: which are applied, which are advertised, and exactly which end the event loop |
| Network.NetworkClient.HandleIGive | database/src/network.rs:735-801 | pulled messages are applied in order, past the window, until a data or configuration message with too few fields or an unknown kind ends the event loop |
| Network.GossipRunIsReplicaRun | database/src/network.rs:907-932 | for any incoming messages the tables are those of a replica handling the logged events in order, and no id is applied twice within 890 applications |
| Network.EndsLoopExactly | database/src/network.rs:883-1084 | for any sound fields, exactly which messages end the event loop and which configuration messages are passed on |
| Network.FormattedIsSafe | database/src/network.rs:892-919 | a data message formatted by a node never ends the loop; its event is applied and logged if and only if hosted, foreign and not among the last 890, and otherwise nothing happens |
| Network.ConfigIsSafe | database/src/network.rs:1636-1636 | nor does a configuration message, which is passed on and touches neither tables nor log |
| Network.SubscriptionIsSafe | database/src/network.rs:1261-1261 | nor does a subscription message |
| Network.PulledIsRun | database/src/network.rs:735-760 | pulled messages that say events are a run of these, each at the clock of the pull |
| Network.PulledAgainIsInert | database/src/network.rs:735-760 | pulling messages of writes already handled changes nothing |
| Ball.IPFSManager.HandleSync | database/src/network.rs:804-829 | a holder that has counted yields to a count at least its own; the list and the time are recorded in any case; other applications are untouched |
| Ball.IPFSManager.HandleGossipSyncMsg | database/src/network.rs:1390-1429 | one SYNC with the queued count per peer, then count on, or hand over at the cap |
| Ball.IPFSManager.MonitorSynching | database/src/network.rs:1762-1818 | when the last SYNC is more than 20 s old, one timer of 10 s times its place for each place of this node |
| Ball.IPFSManager.ManageDataSynchronization | database/src/network.rs:1675-1750 | what one round of the loop does to the token, and what it queues or dispatches |
| Ball.IPFSManager.FireTimer | database/src/network.rs:1795-1813 | a timer acquires if and only if the SYNC is older than 20 s and its delay |
| Ball.IPFSManager.SeizePower | database/src/network.rs:1281-1312 | the three-minute rule |
| Ball.TermLaw | database/src/network.rs:1406-1428 | an undisturbed term publishes 0, 1, 2, ... and ends with exactly the seventh SYNC step |
| Ball.RunKeepsLead | database/src/network.rs:804-829 | in every run without a hand-over some holder stays ahead of all SYNC counts on the wire and of the queued ones that could still be sent |
| Ball.TokenSurvives | database/src/network.rs:804-822 | for n nodes and any interleaving of polls, sends, deliveries, losses and take-overs, somebody holds the token until the first hand-over |
| Ball.DeliveriesDecide | database/src/network.rs:811-821 | of the SYNCs that reach a holder that has counted to c, in any order and number, exactly those with a count of at least c take the token, and reset its count |
| Ball.LeaderRemains | database/src/network.rs:811-821 | among any number of holders that have counted, once each other has heard a SYNC that has got as far as itself, and the leader none, only the leader holds |
| Ball.SeizureDecides | database/src/network.rs:1281-1312 | a seizure gives the token if and only if the node was never told of anyone and the last SYNC, if any, is over three minutes old |
| Ball.StepLosesExactly | database/src/network.rs:1411-1416 | a step leaves no holder if and only if it is the only holder's hand-over or a SYNC that the only holder yields to |
| Ball.CountsStayBounded | database/src/network.rs:1406-1428 | counts stay in 0..6 on every node, in every queue and on the wire |
| Ball.TopCountClears | database/src/network.rs:808-821 | a SYNC that carries 6 leaves its receiver a holder if and only if it held the token without ever counting |
| Takeover.TimerIsExact | database/src/network.rs:1795-1812 | a timer acquires exactly when the recorded SYNC time is unchanged, for every newer time, if and only if it wakes at most 20 s late |
| Takeover.AloneExactly | database/src/network.rs:1678-1705 | an unranked node takes the token at its poll if and only if the contract lists no address, or one without a trailing comma |
| Takeover.TimedRunIsRun | database/src/network.rs:1659-1812 | leaving out the clock, every timed run without deaths is a run of the untimed network |
| Takeover.TokenSurvivesInTime | database/src/network.rs:804-822 | so in real time, too, somebody holds the token until the first hand-over |
| Takeover.TakeOverWindow | database/src/network.rs:1762-1813 | whatever the others do, a node at position r of the SYNC recorded at L that hears and sends none holds the token only after L+20+10(r+1) s, and always after L+30+10(r+1) |
| Takeover.LowestRankFirst | database/src/network.rs:1785-1813 | in every reachable state, if a node holds the token then so does every live one listed before it (one that recorded a hand-over stands back two places) |
| Takeover.TakeOverIsAnnounced | database/src/network.rs:1718-1737 | a node that took over queues its SYNC at its next poll, whatever the contract lists |
| Takeover.TimeGoesOn | database/src/network.rs:1753-1795 | a timed run never blocks: time can pass, or a poll or timer is due |
| Stranding.ReachableIsSound | database/src/network.rs:1390-1429 | in every reachable network a node that has a list or timers is on its list, every SYNC lists whom it is for, and no timer or poll is further ahead than its delay |
| Stranding.SyncArms | database/src/network.rs:824-828 | a SYNC, and a listed node's own hand-over 20 s ahead, puts every timer dispatched before out of action and opens the window of its position |
| Stranding.StrandedStep | database/src/network.rs:1678-1812 | with no holder, no SYNC under way, no live node on its own list and no timer that will act, the next step yields a holder if and only if it is a sole subscriber's poll or a seizure |
| Stranding.StrandedForever | database/src/network.rs:1678-1812 | such a token does not come back in any run without those two |
| Stranding.TokenReturns | database/src/network.rs:1762-1813 | from any reachable network without a holder, a live node with a list brings the token back, if it stays up, within 50 s and its delay |
| Stranding.StrandedExactly | database/src/network.rs:1390-1429 | in every reachable network without a holder the token is stranded if and only if no live node was ever sent a list |
| Stranding.TokenCanBeLost | database/src/network.rs:1411-1416 | from fresh nodes, a run of polls, SYNCs nobody hears and a hand-over strands the token with a node up |
| Contract.DbContract.AddAddress | database/contract/lib.rs:140-155 | appends a new address, dropping the oldest of ten |
| Contract.DbContract.RemoveAddress | database/contract/lib.rs:159-177 | filters the address out, or reports it missing |
| Contract.DbContract.SubscribeNode | database/contract/lib.rs:229-247 | adds an address once |
| Contract.DbContract.UnsubscribeNode | database/contract/lib.rs:251-264 | filters the address out of a known application's list |
| Contract.DbContract.RestrictApp | database/contract/lib.rs:283-314 | appends the user when both accounts exist, otherwise reports the missing one |
| Contract.DbContract.UnrestrictApp | database/contract/lib.rs:318-338 | filters every copy of the user out |
| Contract.BootListIsWellKept | database/contract/lib.rs:140-177 | over any run at most ten boot nodes and none twice |
| Contract.BootListIsOrdered | database/contract/lib.rs:140-177 | the list is in the order of the additions that put its members there |
| Contract.AddressSurvives | database/contract/lib.rs:140-155 | an address not removed survives until ten are behind it, so at least the next nine successful additions |
| Contract.EvictedExactly | database/contract/lib.rs:140-155 | without removals it is on the list if and only if fewer than ten are behind it |
| Contract.BootMembersExactly | database/contract/lib.rs:140-177 | after any run an address is listed if and only if some addition of it was followed by neither a removal of it nor an addition that dropped it as the oldest of ten |
| Contract.RemovalLeaves | database/contract/lib.rs:159-177 | a removal leaves exactly the other addresses, in their order |
| Contract.AdditionLeaves | database/contract/lib.rs:140-155 | an addition of a new address leaves the ten newest, of a known one the list as it is |
| Contract.SubscribersExactly | database/contract/lib.rs:229-264 | the subscribers are exactly those subscribed and not unsubscribed since, each once |
| Contract.SubscribersInOrder | database/contract/lib.rs:229-264 | and in the order of the subscriptions that put them there |
| Contract.RestrictionListExactly | database/contract/lib.rs:283-338 | a user is listed if and only if both accounts exist and some restriction was not lifted since |
| Contract.RestrictionsInOrder | database/contract/lib.rs:283-338 | the list has one entry for every restriction that counted and stands, in their order |
| ContractCodec.ParseContractReturnData | database/src/util.rs:121-142 | collects the bytes of the comma-separated numbers behind the first "elems: " |
| ContractCodec.ReadNumbers | database/src/util.rs:121-142 | whatever numbers stand behind the first "elems: ", among any other text: each below 256 is read as that byte, any other as NUL, and all is lost if they are not UTF-8 |
| ContractCodec.NothingShown | database/src/util.rs:122-122 | text without "elems: " is read as one NUL |
| ContractCodec.ParseOfPrinted | database/src/util.rs:121-142 | printed bytes are read back from among any other text, with one NUL more for an empty list and one for a trailing comma |
| ContractCodec.BlockersRead | database/src/util.rs:347-353 | what encoding, printing, scraping, splitting and filtering leave of any list: all items but empty and NUL ones, and one more for an empty list with a trailing comma |
| ContractCodec.BlockersComeBack | database/src/util.rs:347-353 | so the list comes back if and only if it has no empty or NUL item and is not an empty one with a trailing comma |
| ContractCodec.PairOfPieces | database/src/util.rs:168-172 | an address is cut where it says "/p2p/"; if not exactly once, its first piece is filed under no peer |
| ContractCodec.AddressesComeBack | database/src/util.rs:163-175 | the address table is exactly each peer to the transport of its last address, plus one empty-peer entry for an empty list or a trailing comma |
| Reconcile.DataAccessManager.ManageDataAccessChanges | database/src/network.rs:2513-2607 | one round frees, removes by user name, blocks and records |
| Reconcile.PassDecides | database/src/network.rs:2533-2604 | exactly when an existing owner is denied after a round from any state |
| Reconcile.PassCorrectExactly | database/src/network.rs:2533-2604 | a round makes exactly the listed owners denied if and only if listed owners still on record were denied and unlisted ones off record were not |
| Reconcile.GrowingLists | database/src/network.rs:2513-2607 | while the list only grows, record and denied owners equal the list after every round |
| Reconcile.BlockedAgainIsMissed | database/src/network.rs:2556-2559 | a user freed once and blocking again is never denied again while listed |
| Reconcile.DeniedExactly | database/src/network.rs:2513-2607 | from an empty record an owner is denied after any run of rounds if and only if it is listed now and has been in every round since its first listing |
| Reconcile.OtherApplications | database/src/network.rs:2541-2559 | a round touches no other application's tables, and no other record but that of an application named like a freed user |
| Reconcile.EntryAfterPass | database/src/network.rs:2533-2604 | of an entry a round changes the bit and its time alone, and only for users it frees or blocks |
| Reconcile.RestrictionReachesReader | database/src/network.rs:2519-2604 | a restriction standing on the contract refuses access on the node after one round if and only if the user was off record or already denied |
| Text.SplitOfJoin | database/src/network.rs:893-893 | splitting undoes joining if and only if every field can be cut at its own end |
| Text.JoinOfSplit | database/src/network.rs:893-893 | joining undoes splitting for every text |
| Text.ParseOfPrint | database/src/prelude.rs:996-996 | a printed number parses back exactly when it is below the limit |
| Text.ParseExactly | database/src/prelude.rs:996-996 | exactly the numerals of a number below the limit, with a plus sign or zeros in front or not, parse to it |
| Text.Utf8Exactly | database/src/network.rs:892-892 | exactly the encodings of Unicode scalar values are valid text |

## Left out

- Transport, swarm, Kademlia, dialing, pings, identify and bootstrapping: library calls; sending is adding to a bag of packets.
- `cargo contract`, IPFS, HTTP, encryption, hashing, configuration and logging; account data on the contract beyond existence.
- The lists behind `set`, `get` and `del` batches of the HTTP server and the `keys` command: easy once the store is modelled.
- Grafting, pruning, fan-out and pinning-server tables: bookkeeping; a data message for an application the node does not host changes no table.
- `flush_cache`: its futures are never awaited before the cache is cleared, so it preserves nothing.
- `handle_gossip_heartbeat`: its unsigned subtractions underflow on ordinary sizes.
- `update_data_image`: every iteration starts again from the first snapshot, so only the last changed CID stays.
- The call from an access change back to the contract, and `is_restricted`, which looks under the other key.
- Interleaving inside one handler: each invocation is one step, although the source copies a table and writes it back later.
- Store.DBState.ManageDbAccess: the two clock readings are inputs, and a round of the reconciliation loop uses one reading for all its calls.
- ContractCodec.BlockersComeBack: items neither contain "$$$" nor end in "$", since such lists cannot be told apart once joined.
- Convergence.Projection: says nothing of runs in which a write names an owner that is not present; `OthersKept` says when such a step drops entries.
- Ball.TokenSurvives: says nothing after a hand-over; what then becomes of a token nobody holds is the subject of `Stranding`.
- Takeover.TakeOverWindow: follows a node until it sends or hears its next SYNC, from which `SyncArms` starts again.
- Stranding.TokenReturns: polls and timers are punctual, nodes that go down stay down, and uploading the data image takes no time; `TimerIsExact` says how late a timer may wake.
- Reconcile.DeniedExactly: the application is never on its own list; `PassDecides` says what a round does when it is.
- Network.NetworkClient.HandleGossip: what configuration and subscription messages do to peer lists and pinning servers; whether a field parses as a multi-address is an input.
