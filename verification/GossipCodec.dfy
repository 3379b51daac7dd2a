/** The gossip message: nine fields joined by "$$" and cut apart again at the receiver. */
module GossipCodec {
  import opened Options
  import opened Text
  import opened Store

  const SEPARATOR: Str := [DOLLAR, DOLLAR]
  /** `GossipMsgType as u8`; every other code is ignored. */
  const DATA: nat := 0
  const CONFIG: nat := 1
  const SUBSCRIBE: nat := 2
  const UNSUBSCRIBE: nat := 3

  function TagOf(kind: Kind): Str {
    match kind
    case Access => Print(0)
    case Delete => Print(1)
    case Truncate => Print(2)
    case Write => Print(3)
    case Unknown => Print(4)
  }

  function Fields(ev: GossipEvent, addr: Str, peer: Str): (fields: seq<Str>)
    ensures |fields| == 9
  {
    [Print(DATA), ev.did, ev.key, ev.value, ev.owner, Print(ev.time), addr, peer, TagOf(ev.kind)]
  }

  function Format(ev: GossipEvent, addr: Str, peer: Str): Str {
    Print(DATA) + SEPARATOR + (ev.did + SEPARATOR + (ev.key + SEPARATOR + (ev.value + SEPARATOR + (ev.owner + SEPARATOR +
    (Print(ev.time) + SEPARATOR + (addr + SEPARATOR + (peer + SEPARATOR + TagOf(ev.kind))))))))
  }

  /** What a message says to the tables: nothing, an event, or that its own arm will not find its
      fields. */
  datatype Reading = Malformed | NotData | Data(ev: GossipEvent)

  function CodeOf(text: Str, pulled: bool): Option<nat> {
    if pulled then Some(ParseOrZero(text, U8_LIMIT)) else ParseUnsigned(text, U8_LIMIT)
  }

  /** `pulled` messages come through IGIVE, which reads a malformed code as 0 and drops text that is
      not UTF-8; a gossiped one with such text is read as the empty string. Data and configuration
      messages need nine fields. */
  function Read(message: Str, pulled: bool): Reading {
    if pulled && !Utf8(message) then NotData
    else
      var f := Split(FromUtf8(message), SEPARATOR);
      if |f| < 2 then Malformed
      else
        var code := CodeOf(f[0], pulled);
        if code != Some(DATA) && code != Some(CONFIG) then NotData
        else if |f| < 9 then Malformed
        else if code == Some(CONFIG) then NotData
        else Data(Receive(f[1], f[2], f[3], f[4], f[5], f[8]))
  }

  // ---------------------------------------------------------------- round trip

  /** Text that survives between "$$" separators. */
  ghost predicate Plain(s: Str) { !Contains(s, SEPARATOR) && !EndsWith(s, DOLLAR) }

  ghost predicate AllPlain(ev: GossipEvent, addr: Str, peer: Str) {
    Plain(ev.did) && Plain(ev.key) && Plain(ev.value) && Plain(ev.owner) && Plain(addr) && Plain(peer)
  }

  lemma SeparatorIsRepeat()
    ensures SEPARATOR == Repeat(DOLLAR, 2)
  {
    assert Repeat(DOLLAR, 2) == [DOLLAR] + Repeat(DOLLAR, 1);
  }

  lemma PlainIsClean(s: Str)
    ensures Plain(s) <==> Clean(s, SEPARATOR)
  {
    SeparatorIsRepeat();
    CleanForRepeat(s, DOLLAR, 2);
  }

  lemma OccurrenceHasDollar(s: Str, i: nat)
    requires OccursAt(s, SEPARATOR, i)
    ensures DOLLAR in s
  {
    assert s[i] == s[i..i + 2][0];
  }

  lemma DollarFreeIsPlain(s: Str)
    ensures DOLLAR in s || Plain(s)
  {
    forall i: nat | OccursAt(s, SEPARATOR, i) ensures DOLLAR in s {
      OccurrenceHasDollar(s, i);
    }
  }

  lemma NumberIsPlain(n: nat)
    ensures Plain(Print(n))
  {
    assert forall i :: 0 <= i < |Print(n)| ==> IsDigit(Print(n)[i]);
    DollarFreeIsPlain(Print(n));
  }

  lemma FormatIsJoin(ev: GossipEvent, addr: Str, peer: Str)
    ensures Format(ev, addr, peer) == Join(Fields(ev, addr, peer), SEPARATOR)
  {
    var f := Fields(ev, addr, peer);
    JoinFrom(f, 8); JoinFrom(f, 7); JoinFrom(f, 6); JoinFrom(f, 5); JoinFrom(f, 4);
    JoinFrom(f, 3); JoinFrom(f, 2); JoinFrom(f, 1); JoinFrom(f, 0);
    assert f[0..] == f;
  }

  lemma JoinFrom(f: seq<Str>, k: nat)
    requires k < |f|
    ensures Join(f[k..], SEPARATOR) == if k == |f| - 1 then f[k] else f[k] + SEPARATOR + Join(f[k + 1..], SEPARATOR)
  {
    assert f[k..][1..] == f[k + 1..];
  }

  lemma FieldsSplittable(ev: GossipEvent, addr: Str, peer: Str)
    ensures Splittable(Fields(ev, addr, peer), SEPARATOR) <==> AllPlain(ev, addr, peer)
  {
    var f := Fields(ev, addr, peer);
    assert Plain(f[0]) && Plain(f[5]) && Plain(f[8]) by {
      NumberIsPlain(DATA);
      NumberIsPlain(ev.time);
      NumberIsPlain(0); NumberIsPlain(1); NumberIsPlain(2); NumberIsPlain(3); NumberIsPlain(4);
    }
    forall k | 0 <= k < 9 ensures Plain(f[k]) <==> Clean(f[k], SEPARATOR) {
      PlainIsClean(f[k]);
    }
    assert AllPlain(ev, addr, peer) <==> Plain(f[1]) && Plain(f[2]) && Plain(f[3]) && Plain(f[4]) && Plain(f[6]) && Plain(f[7]);
  }

  /** The nine fields come back exactly when the six texts contain no "$$" and do not end in "$". */
  lemma RoundTripExactly(ev: GossipEvent, addr: Str, peer: Str)
    ensures Split(Format(ev, addr, peer), SEPARATOR) == Fields(ev, addr, peer) <==> AllPlain(ev, addr, peer)
  {
    FormatIsJoin(ev, addr, peer);
    SplitOfJoin(Fields(ev, addr, peer), SEPARATOR);
    FieldsSplittable(ev, addr, peer);
  }

  lemma TagRoundTrip(kind: Kind)
    ensures KindOf(TagOf(kind)) == kind
  {
    ParseOfPrint(0, U8_LIMIT);
    ParseOfPrint(1, U8_LIMIT);
    ParseOfPrint(2, U8_LIMIT);
    ParseOfPrint(3, U8_LIMIT);
    ParseOfPrint(4, U8_LIMIT);
  }

  ghost predicate AllText(ev: GossipEvent, addr: Str, peer: Str) {
    Utf8(ev.did) && Utf8(ev.key) && Utf8(ev.value) && Utf8(ev.owner) && Utf8(addr) && Utf8(peer)
  }

  lemma NumberIsText(n: nat)
    ensures Utf8(Print(n))
  {
    forall i | 0 <= i < |Print(n)| ensures Print(n)[i] < 0x80 {
      assert IsDigit(Print(n)[i]);
    }
    AsciiIsUtf8(Print(n));
  }

  lemma {:induction false} JoinIsText(f: seq<Str>)
    requires f != [] && forall k :: 0 <= k < |f| ==> Utf8(f[k])
    ensures Utf8(Join(f, SEPARATOR))
  {
    if |f| == 1 {
    } else {
      JoinIsText(f[1..]);
      AsciiIsUtf8(SEPARATOR);
      Utf8Append(f[0], SEPARATOR);
      Utf8Append(f[0] + SEPARATOR, Join(f[1..], SEPARATOR));
    }
  }

  /** Plain texts arrive as they were joined, whatever the message. */
  lemma PlainArrives(f: seq<Str>)
    requires f != [] && forall k :: 0 <= k < |f| ==> Plain(f[k]) && Utf8(f[k])
    ensures Utf8(Join(f, SEPARATOR)) && Split(Join(f, SEPARATOR), SEPARATOR) == f
  {
    forall k | 0 <= k < |f| ensures Clean(f[k], SEPARATOR) {
      PlainIsClean(f[k]);
    }
    SplitOfJoin(f, SEPARATOR);
    JoinIsText(f);
  }

  lemma FormatIsText(ev: GossipEvent, addr: Str, peer: Str)
    requires AllText(ev, addr, peer)
    ensures Utf8(Format(ev, addr, peer))
  {
    NumberIsText(DATA); NumberIsText(ev.time);
    NumberIsText(0); NumberIsText(1); NumberIsText(2); NumberIsText(3); NumberIsText(4);
    FormatIsJoin(ev, addr, peer);
    JoinIsText(Fields(ev, addr, peer));
  }

  ghost predicate Sound(s: Str) { Plain(s) && Utf8(s) }

  /** The text is a numeral of a number that a byte can hold. */
  ghost predicate SmallNumber(s: Str) { exists v: nat :: v < U8_LIMIT && Numeral(s, v) }

  lemma SmallNumberExactly(s: Str)
    ensures ParseUnsigned(s, U8_LIMIT).Some? <==> SmallNumber(s)
    ensures forall v: nat :: ParseUnsigned(s, U8_LIMIT) == Some(v) <==> v < U8_LIMIT && Numeral(s, v)
  {
    forall v: nat ensures ParseUnsigned(s, U8_LIMIT) == Some(v) <==> v < U8_LIMIT && Numeral(s, v) {
      ParseExactly(s, U8_LIMIT, v);
    }
  }

  /** A tag is read by its number: 1 is a Delete, 2 a Truncate, 3 a Write, from 4 on it is unknown; 0, and
      whatever is not a number, is an Access. */
  lemma KindExactly(tag: Str)
    ensures KindOf(tag) == Delete <==> Numeral(tag, 1)
    ensures KindOf(tag) == Truncate <==> Numeral(tag, 2)
    ensures KindOf(tag) == Write <==> Numeral(tag, 3)
    ensures KindOf(tag) == Unknown <==> exists v: nat :: 4 <= v < U8_LIMIT && Numeral(tag, v)
  {
    SmallNumberExactly(tag);
  }

  lemma SoundArrives(f: seq<Str>)
    requires f != [] && forall s :: s in f ==> Sound(s)
    ensures Utf8(Join(f, SEPARATOR)) && Split(Join(f, SEPARATOR), SEPARATOR) == f
  {
    assert forall k :: 0 <= k < |f| ==> f[k] in f && Sound(f[k]);
    PlainArrives(f);
  }

  /** The code of a data message; a pulled one may also have no number for it. */
  ghost predicate DataCode(s: Str, pulled: bool) { Numeral(s, 0) || (pulled && !SmallNumber(s)) }

  lemma CodeExactly(s: Str, pulled: bool)
    ensures CodeOf(s, pulled) == Some(DATA) <==> DataCode(s, pulled)
    ensures CodeOf(s, pulled) == Some(CONFIG) <==> Numeral(s, 1)
  {
    SmallNumberExactly(s);
    assert ParseUnsigned(s, U8_LIMIT) == Some(0) <==> Numeral(s, 0);
    assert ParseUnsigned(s, U8_LIMIT) == Some(1) <==> Numeral(s, 1);
  }

  /** What any sound fields say once joined: too few of them, nothing for the tables, or an event. */
  lemma ReadExactly(f: seq<Str>, pulled: bool)
    requires f != [] && forall s :: s in f ==> Sound(s)
    ensures var r := Read(Join(f, SEPARATOR), pulled);
            && (r == Malformed <==> |f| < 2 || ((DataCode(f[0], pulled) || Numeral(f[0], 1)) && |f| < 9))
            && (r.Data? <==> DataCode(f[0], pulled) && |f| >= 9)
  {
    SoundArrives(f);
    CodeExactly(f[0], pulled);
  }

  /** And what event: the kind by its tag, and a time that is no number below 2^64 as zero. */
  lemma EventExactly(f: seq<Str>, pulled: bool)
    requires f != [] && (forall s :: s in f ==> Sound(s)) && Read(Join(f, SEPARATOR), pulled).Data?
    ensures var ev := Read(Join(f, SEPARATOR), pulled).ev;
            && |f| >= 9 && ev == GossipEvent(KindOf(f[8]), f[1], f[2], f[3], f[4], ev.time)
            && (if exists v: nat :: v < U64_LIMIT && Numeral(f[5], v) then Numeral(f[5], ev.time) else ev.time == 0)
  {
    SoundArrives(f);
    TimeExactly(f[5]);
  }

  lemma TimeExactly(s: Str)
    ensures if exists v: nat :: v < U64_LIMIT && Numeral(s, v) then Numeral(s, ParseOrZero(s, U64_LIMIT)) else ParseOrZero(s, U64_LIMIT) == 0
  {
    if v: nat :| v < U64_LIMIT && Numeral(s, v) {
      ParseExactly(s, U64_LIMIT, v);
    } else if ParseUnsigned(s, U64_LIMIT).Some? {
      ParsedIsNumeral(s, U64_LIMIT);
    }
  }

  /** Bytes that are not UTF-8 are dropped when pulled, and lack every field when gossiped. */
  lemma BadText(message: Str, pulled: bool)
    requires !Utf8(message)
    ensures Read(message, pulled) == if pulled then NotData else Malformed
  {
    SplitOfWhole([], SEPARATOR);
  }

  /** The fields a receiver cuts out, and what it reads in them. */
  lemma FieldsArrive(ev: GossipEvent, addr: Str, peer: Str)
    requires AllPlain(ev, addr, peer) && AllText(ev, addr, peer) && ev.time < U64_LIMIT
    ensures Utf8(Format(ev, addr, peer))
    ensures Split(Format(ev, addr, peer), SEPARATOR) == Fields(ev, addr, peer)
    ensures ParseUnsigned(Print(DATA), U8_LIMIT) == Some(DATA) && KindOf(TagOf(ev.kind)) == ev.kind
    ensures Receive(ev.did, ev.key, ev.value, ev.owner, Print(ev.time), TagOf(ev.kind)) == ev
  {
    RoundTripExactly(ev, addr, peer);
    FormatIsText(ev, addr, peer);
    ParseOfPrint(DATA, U8_LIMIT);
    ParseOfPrint(ev.time, U64_LIMIT);
    TagRoundTrip(ev.kind);
  }

  /** Whichever way the message travels, the receiver applies the event that was published. */
  lemma ReadOfFormat(ev: GossipEvent, addr: Str, peer: Str, pulled: bool)
    requires AllPlain(ev, addr, peer) && AllText(ev, addr, peer) && ev.time < U64_LIMIT
    ensures Read(Format(ev, addr, peer), pulled) == Data(ev)
  {
    FieldsArrive(ev, addr, peer);
  }

  /** An access change reads back as the same permission. */
  lemma AccessReadsBack(db: Db, did: Str, owner: Str, perm: bool, now: nat, sent: nat, addr: Str, peer: Str, pulled: bool)
    requires sent < U64_LIMIT && Utf8(did) && Utf8(owner) && Utf8(addr) && Utf8(peer)
    requires Plain(did) && Plain(owner) && Plain(addr) && Plain(peer)
    requires owner in TableOf(db.applications, did)
    ensures var published := ManageAccess(db, did, owner, perm, now, sent).published;
            && published.Some?
            && var r := Read(Format(published.value, addr, peer), pulled);
               r.Data? && r.ev.kind == Access && ParseBool(r.ev.key) == perm && r.ev.owner == owner && r.ev.time == sent
  {
    var ev := GossipEvent(Access, did, PrintBool(perm), [], owner, sent);
    assert Read(Format(ev, addr, peer), pulled) == Data(ev) by {
      DollarFreeIsPlain([]);
      DollarFreeIsPlain(PrintBool(perm));
      AsciiIsUtf8(PrintBool(perm));
      ReadOfFormat(ev, addr, peer, pulled);
    }
    assert ManageAccess(db, did, owner, perm, now, sent).published == Some(ev);
  }

  /** What a reader must hold for a Write to show: nothing of the owner, or an accessible entry whose
      stamp is older or that has the very value already. */
  predicate LetsShow(table: HashTable, owner: Str, key: Str, value: Str, time: nat) {
    owner in table ==>
      && table[owner].access
      && (StoredTime(UnitIn(table[owner].data, key)) < time
          || (key in table[owner].data && table[owner].data[key].access && table[owner].data[key].data == value))
  }

  lemma WriteShowsExactly(reader: Applications, ev: GossipEvent, clock: nat)
    requires ev.kind == Write
    ensures GetValue(Db(Apply(reader, ev, clock), map[], true), ev.did, Some(ev.owner), ev.key) == Got(ev.key, ev.value)
            <==> LetsShow(TableOf(reader, ev.did), ev.owner, ev.key, ev.value, ev.time)
  {
    var before, after := TableOf(reader, ev.did), TableOf(Apply(reader, ev, clock), ev.did);
    assert ev.owner in after;
    if ev.owner in before {
      assert after[ev.owner] == EntryAfter(before[ev.owner], ev, clock);
    }
  }

  /** A value set on one node is what a get on any other node returns once the message is handled,
      exactly when the reader's tables let it show. */
  lemma RemoteReadAfterSet(writer: Db, reader: Applications, did: Str, owner: Str, key: Str, value: Str,
                           now: nat, stamp: nat, addr: Str, peer: Str, pulled: bool, clock: nat)
    requires did in writer.applications && now < U64_LIMIT
    requires AllPlain(GossipEvent(Write, did, key, value, owner, now), addr, peer)
    requires AllText(GossipEvent(Write, did, key, value, owner, now), addr, peer)
    ensures var ev := GossipEvent(Write, did, key, value, owner, now);
            && SetValue(writer, did, Some(owner), key, value, now, stamp).published == Some(ev)
            && Read(Format(ev, addr, peer), pulled) == Data(ev)
            && (GetValue(Db(Apply(reader, ev, clock), map[], true), did, Some(owner), key) == Got(key, value)
                <==> LetsShow(TableOf(reader, did), owner, key, value, now))
  {
    var ev := GossipEvent(Write, did, key, value, owner, now);
    ReadOfFormat(ev, addr, peer, pulled);
    WriteShowsExactly(reader, ev, clock);
  }
}
