/** From the contract's byte lists, through the text that the command-line client prints, back to
    the lists and address tables of the node (database/src/util.rs). */
module ContractCodec {
  import opened Options
  import opened Text
  import opened Contract

  /** "elems: " */
  const ELEMS: Str := [101, 108, 101, 109, 115, 58, 32]
  /** "/p2p/" */
  const P2P: Str := [47, 112, 50, 112, 47]
  const NUL: Str := [0]

  // ---------------------------------------------------------------- reading the client's output

  function Kept(s: Str): Str {
    if s == [] then []
    else Kept(s[..|s| - 1]) + if s[|s| - 1] == COMMA || IsDigit(s[|s| - 1]) then [s[|s| - 1]] else []
  }

  function SecondPiece(text: Str): Str {
    var pieces := Split(text, ELEMS);
    if |pieces| >= 2 then pieces[1] else []
  }

  /** A token that is not a number below 256 reads as zero. */
  function Bytes(tokens: seq<Str>): (bytes: Str)
    ensures |bytes| == |tokens|
  {
    if tokens == [] then [] else Bytes(tokens[..|tokens| - 1]) + [ParseOrZero(tokens[|tokens| - 1], 256)]
  }

  function Parsed(text: Str): Str {
    FromUtf8(Bytes(Split(Kept(SecondPiece(text)), [COMMA])))
  }

  method ParseContractReturnData(binding: Str) returns (data: Str)
    ensures data == Parsed(binding)
  {
    var output := SecondPiece(binding);
    var tokens := Split(Kept(output), [COMMA]);
    var collator: Str := [];
    for i := 0 to |tokens|
      invariant collator == Bytes(tokens[..i])
    {
      assert tokens[..i + 1][..i] == tokens[..i];
      collator := collator + [ParseOrZero(tokens[i], 256)];
    }
    assert tokens[..|tokens|] == tokens;
    data := FromUtf8(collator);
  }

  /** The bytes printed as decimals with commas between them. */
  function Decimals(bytes: Str): seq<Str> {
    if bytes == [] then [] else Decimals(bytes[..|bytes| - 1]) + [Print(bytes[|bytes| - 1])]
  }

  function PrintedList(bytes: Str, trailing: bool): Str {
    var tokens := Decimals(bytes) + if trailing then [[]] else [];
    if tokens == [] then [] else if bytes == [] then [COMMA] else Join(tokens, [COMMA])
  }

  ghost predicate DigitsAndCommas(s: Str) { forall i :: 0 <= i < |s| ==> IsDigit(s[i]) || s[i] == COMMA }

  ghost predicate DigitFree(s: Str) { forall i :: 0 <= i < |s| ==> !IsDigit(s[i]) && s[i] != COMMA }

  /** The characters with a piece of other text before, between and after them. */
  function Scattered(chars: Str, noise: seq<Str>): Str
    requires |noise| == |chars| + 1
  {
    if chars == [] then noise[0]
    else Scattered(chars[..|chars| - 1], noise[..|chars|]) + [chars[|chars| - 1]] + noise[|chars|]
  }

  ghost predicate Among(body: Str, chars: Str) {
    exists noise: seq<Str> :: |noise| == |chars| + 1 && (forall k :: 0 <= k < |noise| ==> DigitFree(noise[k])) && body == Scattered(chars, noise)
  }

  /** Between the first "elems: " and the next one or the end stand the characters, among others that are
      neither digits nor commas. */
  ghost predicate ShowsChars(text: Str, chars: Str) {
    exists prefix, body, rest ::
      && text == prefix + ELEMS + (body + rest) && Clean(prefix, ELEMS) && Among(body, chars)
      && Ends(body, rest)
  }

  ghost predicate Ends(body: Str, rest: Str) {
    if rest == [] then !Contains(body, ELEMS) else ELEMS <= rest && Clean(body, ELEMS)
  }

  ghost predicate Shows(text: Str, bytes: Str, trailing: bool) { ShowsChars(text, PrintedList(bytes, trailing)) }

  lemma {:induction false} KeptAppend(a: Str, b: Str)
    ensures Kept(a + b) == Kept(a) + Kept(b)
  {
    if b == [] {
      assert a + b == a;
    } else {
      KeptAppend(a, b[..|b| - 1]);
      assert (a + b)[..|a + b| - 1] == a + b[..|b| - 1];
    }
  }

  lemma {:induction false} KeptOfNoise(s: Str)
    requires DigitFree(s)
    ensures Kept(s) == []
  {
    if s == [] {
    } else {
      KeptOfNoise(s[..|s| - 1]);
    }
  }

  lemma KeptStep(front: Str, d: byte, noise: Str)
    requires (IsDigit(d) || d == COMMA) && DigitFree(noise)
    ensures Kept(front + [d] + noise) == Kept(front) + [d]
  {
    KeptAppend(front + [d], noise);
    KeptOfNoise(noise);
    assert (front + [d])[..|front|] == front;
  }

  /** Filtering finds the digits and commas among other text. */
  lemma {:induction false} KeptOfScattered(chars: Str, noise: seq<Str>)
    requires |noise| == |chars| + 1 && forall k :: 0 <= k < |noise| ==> DigitFree(noise[k])
    requires DigitsAndCommas(chars)
    ensures Kept(Scattered(chars, noise)) == chars
  {
    if chars == [] {
      KeptOfNoise(noise[0]);
    } else {
      var n := |chars| - 1;
      KeptOfScattered(chars[..n], noise[..|chars|]);
      KeptStep(Scattered(chars[..n], noise[..|chars|]), chars[n], noise[|chars|]);
      assert chars == chars[..n] + [chars[n]];
    }
  }

  lemma TextCut(prefix: Str, body: Str, rest: Str)
    requires Clean(prefix, ELEMS) && Ends(body, rest)
    ensures SecondPiece(prefix + ELEMS + (body + rest)) == body
  {
    SplitCons(prefix, ELEMS, body + rest);
    if rest == [] {
      SplitOfWhole(body, ELEMS);
      assert body + rest == body;
    } else {
      var more := rest[|ELEMS|..];
      assert body + rest == body + ELEMS + more;
      SplitCons(body, ELEMS, more);
    }
  }

  /** The client's text is read as the bytes of the tokens between the commas it shows. */
  lemma ReadShown(text: Str, chars: Str)
    requires ShowsChars(text, chars) && DigitsAndCommas(chars)
    ensures Parsed(text) == FromUtf8(Bytes(Split(chars, [COMMA])))
  {
    var prefix, body, rest :| && text == prefix + ELEMS + (body + rest) && Clean(prefix, ELEMS) && Among(body, chars) && Ends(body, rest);
    var noise: seq<Str> :| |noise| == |chars| + 1 && (forall k :: 0 <= k < |noise| ==> DigitFree(noise[k])) && body == Scattered(chars, noise);
    TextCut(prefix, body, rest);
    KeptOfScattered(chars, noise);
  }

  /** Text without "elems: " is read as one stray NUL. */
  lemma NothingShown(text: Str)
    requires !Contains(text, ELEMS)
    ensures Parsed(text) == [0]
  {
    SplitOfWhole(text, ELEMS);
    var tokens: seq<Str> := [[]];
    assert Split([], [COMMA]) == tokens;
    assert tokens[..0] == [] && Bytes(tokens) == [0];
    AsciiIsUtf8([0]);
  }

  lemma {:induction false} BytesAt(tokens: seq<Str>, k: nat)
    requires k < |tokens|
    ensures Bytes(tokens)[k] == ParseOrZero(tokens[k], 256)
  {
    if k == |tokens| - 1 {
    } else {
      BytesAt(tokens[..|tokens| - 1], k);
    }
  }

  /** Whatever numbers the text shows, with commas between them: each below 256 is read as that byte, and
      any other, or nothing between two commas, as NUL; all is lost if the bytes are not UTF-8. */
  lemma ReadNumbers(text: Str, tokens: seq<Str>) returns (bytes: Str)
    requires tokens != [] && forall k :: 0 <= k < |tokens| ==> AllDigits(tokens[k])
    requires ShowsChars(text, Join(tokens, [COMMA]))
    ensures |bytes| == |tokens| && Parsed(text) == if Utf8(bytes) then bytes else []
    ensures forall k, v: nat :: 0 <= k < |tokens| && Numeral(tokens[k], v) ==> bytes[k] == if v < 256 then v else 0
    ensures forall k :: 0 <= k < |tokens| && tokens[k] == [] ==> bytes[k] == 0
  {
    bytes := Bytes(tokens);
    JoinOfDigits(tokens);
    ReadShown(text, Join(tokens, [COMMA]));
    forall k | 0 <= k < |tokens| ensures Clean(tokens[k], [COMMA]) && !Contains(tokens[k], [COMMA]) {
      assert forall i :: 0 <= i < |tokens[k]| ==> IsDigit(tokens[k][i]);
      CommaFree(tokens[k]);
    }
    SplitOfJoin(tokens, [COMMA]);
    forall k | 0 <= k < |tokens| ensures bytes[k] == ParseOrZero(tokens[k], 256) {
      BytesAt(tokens, k);
    }
    forall k, v: nat | 0 <= k < |tokens| && Numeral(tokens[k], v) ensures bytes[k] == if v < 256 then v else 0 {
      var plus, zeros :| tokens[k] == Padded(plus, zeros, v);
      NumeralParses(plus, zeros, v, 256);
    }
  }

  lemma {:induction false} JoinOfDigits(tokens: seq<Str>)
    requires tokens != [] && forall k :: 0 <= k < |tokens| ==> AllDigits(tokens[k])
    ensures DigitsAndCommas(Join(tokens, [COMMA]))
  {
    if |tokens| == 1 {
    } else {
      var rest := Join(tokens[1..], [COMMA]);
      JoinOfDigits(tokens[1..]);
      forall i | 0 <= i < |tokens[0]| ensures IsDigit(tokens[0][i]) {
        assert AllDigits(tokens[0]);
      }
      assert DigitsAndCommas(tokens[0] + [COMMA]);
      assert DigitsAndCommas(tokens[0] + [COMMA] + rest);
    }
  }

  lemma {:induction false} DecimalsAt(bytes: Str)
    ensures |Decimals(bytes)| == |bytes|
    ensures forall i :: 0 <= i < |bytes| ==> Decimals(bytes)[i] == Print(bytes[i])
  {
    if bytes == [] {
    } else {
      DecimalsAt(bytes[..|bytes| - 1]);
    }
  }

  lemma BytesAppend(tokens: seq<Str>, token: Str)
    ensures Bytes(tokens + [token]) == Bytes(tokens) + [ParseOrZero(token, 256)]
  {
    assert (tokens + [token])[..|tokens|] == tokens;
  }

  lemma {:induction false} BytesOfDecimals(bytes: Str)
    ensures Bytes(Decimals(bytes)) == bytes
  {
    if bytes == [] {
    } else {
      var n := |bytes| - 1;
      BytesOfDecimals(bytes[..n]);
      ParseOfPrint(bytes[n], 256);
      BytesAppend(Decimals(bytes[..n]), Print(bytes[n]));
    }
  }

  lemma CommaFree(s: Str)
    ensures COMMA in s || (Clean(s, [COMMA]) && !Contains(s, [COMMA]))
  {
    forall i: nat | OccursAt(s, [COMMA], i) ensures COMMA in s {
      assert s[i] == s[i..i + 1][0];
    }
    assert Repeat(COMMA, 1) == [COMMA];
    CleanForRepeat(s, COMMA, 1);
  }

  /** The tokens cut out of a printed list: an empty one for an empty list, and one more for a
      trailing comma. */
  lemma TokensComeBack(bytes: Str, trailing: bool)
    ensures var tokens := if bytes == [] then [[]] else Decimals(bytes);
            Split(PrintedList(bytes, trailing), [COMMA]) == if trailing then tokens + [[]] else tokens
  {
    CommaFree([]);
    SplitOfWhole([], [COMMA]);
    if bytes == [] {
      SplitCons([], [COMMA], []);
      assert [] + [COMMA] + [] == [COMMA];
    } else {
      var tokens := Decimals(bytes) + if trailing then [[]] else [];
      DecimalsAt(bytes);
      forall k | 0 <= k < |tokens| ensures Clean(tokens[k], [COMMA]) && !Contains(tokens[k], [COMMA]) {
        assert forall i :: 0 <= i < |tokens[k]| ==> IsDigit(tokens[k][i]);
        CommaFree(tokens[k]);
      }
      SplitOfJoin(tokens, [COMMA]);
    }
  }

  /** The NULs read behind the bytes: one for an empty list, one for a trailing comma. */
  function Nuls(bytes: Str, trailing: bool): Str {
    (if bytes == [] then NUL else []) + (if trailing then NUL else [])
  }

  lemma BytesComeBack(bytes: Str, trailing: bool)
    ensures Bytes(Split(PrintedList(bytes, trailing), [COMMA])) == bytes + Nuls(bytes, trailing)
  {
    var tokens: seq<Str> := if bytes == [] then [[]] else Decimals(bytes);
    TokensComeBack(bytes, trailing);
    BytesOfDecimals(bytes);
    BytesAppend([], []);
    assert [] + [[]] == tokens || bytes != [];
    BytesAppend(tokens, []);
  }

  lemma PrintedListIsDigits(bytes: Str, trailing: bool)
    ensures DigitsAndCommas(PrintedList(bytes, trailing))
  {
    var tokens := Decimals(bytes) + if trailing then [[]] else [];
    DecimalsAt(bytes);
    if tokens != [] {
      assert forall k :: 0 <= k < |tokens| ==> AllDigits(tokens[k]);
      JoinOfDigits(tokens);
    }
  }

  /** Reading the printed bytes gives them back, with the stray NULs, unless they are not UTF-8. */
  lemma ParseOfPrinted(text: Str, bytes: Str, trailing: bool)
    requires Shows(text, bytes, trailing)
    ensures Parsed(text) == if Utf8(bytes + Nuls(bytes, trailing)) then bytes + Nuls(bytes, trailing) else []
    ensures Utf8(bytes) ==> Utf8(bytes + Nuls(bytes, trailing))
  {
    PrintedListIsDigits(bytes, trailing);
    ReadShown(text, PrintedList(bytes, trailing));
    BytesComeBack(bytes, trailing);
    AsciiIsUtf8(Nuls(bytes, trailing));
    if Utf8(bytes) {
      Utf8Append(bytes, Nuls(bytes, trailing));
    }
  }

  // ---------------------------------------------------------------- lists of DIDs

  function NonEmpty(s: seq<Str>): seq<Str> { Without(s, []) }

  function ExtractDids(text: Str): seq<Str> { NonEmpty(Split(text, LIST_SEPARATOR)) }

  /** The "\0" filter of the access loop. */
  function DropNul(s: seq<Str>): seq<Str> { Without(s, NUL) }

  ghost predicate ListItem(s: Str) {
    !Contains(s, LIST_SEPARATOR) && !EndsWith(s, DOLLAR)
  }

  ghost predicate ListItems(items: seq<Str>) { forall i :: 0 <= i < |items| ==> ListItem(items[i]) }

  ghost predicate Texts(items: seq<Str>) { forall i :: 0 <= i < |items| ==> Utf8(items[i]) }

  lemma ListItemIsClean(s: Str)
    requires ListItem(s)
    ensures Clean(s, LIST_SEPARATOR)
  {
    assert Repeat(DOLLAR, 3) == LIST_SEPARATOR;
    CleanForRepeat(s, DOLLAR, 3);
  }

  lemma EncodedFront(items: seq<Str>, tail: Str)
    requires items != []
    ensures EncodeList(items) + tail == items[0] + LIST_SEPARATOR + (EncodeList(items[1..]) + tail)
  {
  }

  lemma {:induction false} SplitOfList(items: seq<Str>, tail: Str)
    requires ListItems(items) && !Contains(tail, LIST_SEPARATOR)
    ensures Split(EncodeList(items) + tail, LIST_SEPARATOR) == items + [tail]
  {
    if items == [] {
      SplitOfWhole(tail, LIST_SEPARATOR);
      assert EncodeList(items) + tail == tail;
    } else {
      ListItemIsClean(items[0]);
      var rest := EncodeList(items[1..]) + tail;
      SplitCons(items[0], LIST_SEPARATOR, rest);
      SplitOfList(items[1..], tail);
      EncodedFront(items, tail);
      assert items + [tail] == [items[0]] + (items[1..] + [tail]);
    }
  }

  lemma ShortTail(tail: Str)
    requires |tail| <= 2
    ensures !Contains(tail, LIST_SEPARATOR)
  {
  }

  lemma {:induction false} EncodedIsText(items: seq<Str>)
    requires Texts(items)
    ensures Utf8(EncodeList(items))
  {
    if items == [] {
    } else {
      EncodedIsText(items[1..]);
      AsciiIsUtf8(LIST_SEPARATOR);
      Utf8Append(items[0], LIST_SEPARATOR);
      Utf8Append(items[0] + LIST_SEPARATOR, EncodeList(items[1..]));
    }
  }

  /** The stray NULs behind an encoded list. */
  function Tail(items: seq<Str>, trailing: bool): Str { Nuls(EncodeList(items), trailing) }

  lemma EncodedIsEmpty(items: seq<Str>)
    ensures EncodeList(items) == [] <==> items == []
  {
  }

  lemma ReadList(items: seq<Str>, text: Str, trailing: bool)
    requires Texts(items) && Shows(text, EncodeList(items), trailing)
    ensures Parsed(text) == EncodeList(items) + Tail(items, trailing)
    ensures Tail(items, trailing) == [] <==> items != [] && !trailing
    ensures |Tail(items, trailing)| <= 2
  {
    EncodedIsText(items);
    EncodedIsEmpty(items);
    ParseOfPrinted(text, EncodeList(items), trailing);
  }

  lemma ExtractedList(items: seq<Str>, tail: Str)
    requires ListItems(items) && |tail| <= 2
    ensures NonEmpty(Split(EncodeList(items) + tail, LIST_SEPARATOR)) == NonEmpty(items) + if tail == [] then [] else [tail]
  {
    ShortTail(tail);
    SplitOfList(items, tail);
    assert (items + [tail])[..|items|] == items;
  }

  lemma DropTail(kept: seq<Str>, tail: Str)
    ensures DropNul(kept + [tail]) == DropNul(kept) + if tail == NUL then [] else [tail]
  {
    assert (kept + [tail])[..|kept|] == kept;
  }

  /** What is left of a list of access blockers after the whole trip -- encoding, printing, scraping,
      splitting, filtering: all items but empty and NUL ones, and one item more for an empty list printed
      with a trailing comma. */
  lemma BlockersRead(items: seq<Str>, text: Str, trailing: bool)
    requires ListItems(items) && Texts(items) && Shows(text, EncodeList(items), trailing)
    ensures DropNul(ExtractDids(Parsed(text))) ==
            Without(Without(items, []), [0]) + if items == [] && trailing then [[0, 0]] else []
  {
    var tail := Tail(items, trailing);
    ReadList(items, text, trailing);
    ExtractedList(items, tail);
    DropTail(NonEmpty(items), tail);
    TailExactly(items, trailing);
    assert NonEmpty(items) + [] == NonEmpty(items);
  }

  lemma TailExactly(items: seq<Str>, trailing: bool)
    ensures Tail(items, trailing) == if items == [] && trailing then [0, 0] else if items == [] || trailing then [0] else []
  {
    EncodedIsEmpty(items);
  }

  /** So the list survives exactly if it has neither empty nor NUL items and is not an empty one printed with
      a trailing comma. */
  lemma BlockersComeBack(items: seq<Str>, text: Str, trailing: bool)
    requires ListItems(items) && Texts(items) && Shows(text, EncodeList(items), trailing)
    ensures DropNul(ExtractDids(Parsed(text))) == items <==> [] !in items && [0] !in items && !(items == [] && trailing)
  {
    BlockersRead(items, text, trailing);
    WithoutMembers(items, [], []);
    WithoutMembers(Without(items, []), [0], []);
    WithoutMembers(Without(items, []), [0], [0]);
    if [] !in items && [0] !in items {
      WithoutAbsent(items, []);
      WithoutAbsent(items, [0]);
    }
  }

  // ---------------------------------------------------------------- address tables

  datatype Address = Address(transport: Str, peer: Str)

  function Whole(a: Address): Str { a.transport + P2P + a.peer }

  function Wholes(addrs: seq<Address>): (s: seq<Str>)
    ensures |s| == |addrs| && forall i :: 0 <= i < |s| ==> s[i] == Whole(addrs[i])
  {
    seq(|addrs|, i requires 0 <= i < |addrs| => Whole(addrs[i]))
  }

  function PairOf(address: Str): (Str, Str) {
    var parts := Split(address, P2P);
    if |parts| == 2 then (parts[1], parts[0]) else ([], parts[0])
  }

  /** Collecting into a hash map: a later pair replaces an earlier one with the same key. */
  function Collect(addresses: seq<Str>): map<Str, Str> {
    if addresses == [] then map[]
    else
      var pair := PairOf(addresses[|addresses| - 1]);
      Collect(addresses[..|addresses| - 1])[pair.0 := pair.1]
  }

  function ParseMultiaddresses(text: Str): map<Str, Str> {
    Collect(NonEmpty(Split(text, LIST_SEPARATOR)))
  }

  /** An address with exactly one place where it can be cut. */
  ghost predicate Proper(a: Address) {
    Clean(a.transport, P2P) && !Contains(a.peer, P2P) && a.peer != []
  }

  ghost predicate AllProper(addrs: seq<Address>) { forall i :: 0 <= i < |addrs| ==> Proper(addrs[i]) }

  /** An address is cut where it says "/p2p/"; if not exactly once, its first piece is filed under no peer. */
  lemma PairOfPieces(pieces: seq<Str>)
    requires pieces != [] && Splittable(pieces, P2P)
    ensures PairOf(Join(pieces, P2P)) == if |pieces| == 2 then (pieces[1], pieces[0]) else ([], pieces[0])
  {
    SplitOfJoin(pieces, P2P);
  }

  lemma PairOfWhole(a: Address)
    requires Proper(a)
    ensures PairOf(Whole(a)) == (a.peer, a.transport)
  {
    SplitCons(a.transport, P2P, a.peer);
    SplitOfWhole(a.peer, P2P);
  }

  ghost predicate DistinctPeers(addrs: seq<Address>) {
    forall i, j :: 0 <= i < j < |addrs| ==> addrs[i].peer != addrs[j].peer
  }

  ghost predicate HasPeer(addrs: seq<Address>, p: Str) { exists i :: 0 <= i < |addrs| && addrs[i].peer == p }

  /** No later address has its peer. */
  ghost predicate LastOfPeer(addrs: seq<Address>, i: nat) {
    i < |addrs| && forall j :: i < j < |addrs| ==> addrs[j].peer != addrs[i].peer
  }

  /** Exactly the peers, each with the transport part of its last address. */
  ghost predicate IsTable(table: map<Str, Str>, addrs: seq<Address>) {
    && (forall p :: p in table <==> HasPeer(addrs, p))
    && (forall i: nat :: LastOfPeer(addrs, i) ==> addrs[i].peer in table && table[addrs[i].peer] == addrs[i].transport)
    && (DistinctPeers(addrs) ==> |table| == |addrs|)
  }

  lemma LastOfPeerSteps(addrs: seq<Address>, a: Address, i: nat)
    requires LastOfPeer(addrs + [a], i)
    ensures i == |addrs| || (LastOfPeer(addrs, i) && addrs[i].peer != a.peer)
  {
    var all := addrs + [a];
    if i < |addrs| {
      assert all[|addrs|].peer != all[i].peer;
      forall j | i < j < |addrs| ensures addrs[j].peer != addrs[i].peer {
        assert all[j].peer != all[i].peer;
      }
    }
  }

  lemma DistinctSteps(addrs: seq<Address>, a: Address)
    requires DistinctPeers(addrs + [a])
    ensures DistinctPeers(addrs) && !HasPeer(addrs, a.peer)
  {
    var all := addrs + [a];
    forall i, j | 0 <= i < j < |addrs| ensures addrs[i].peer != addrs[j].peer {
      assert all[i].peer != all[j].peer;
    }
    forall i | 0 <= i < |addrs| ensures addrs[i].peer != a.peer {
      assert all[i].peer != all[|addrs|].peer;
    }
  }

  lemma HasPeerSteps(addrs: seq<Address>, a: Address, p: Str)
    ensures HasPeer(addrs + [a], p) <==> HasPeer(addrs, p) || p == a.peer
  {
    var all := addrs + [a];
    assert all[|addrs|] == a;
    assert forall i :: 0 <= i < |addrs| ==> all[i] == addrs[i];
  }

  lemma TableGrows(table: map<Str, Str>, addrs: seq<Address>, a: Address)
    requires IsTable(table, addrs)
    ensures IsTable(table[a.peer := a.transport], addrs + [a])
  {
    var all, grown := addrs + [a], table[a.peer := a.transport];
    forall p ensures p in grown <==> HasPeer(all, p) {
      HasPeerSteps(addrs, a, p);
    }
    forall i: nat | LastOfPeer(all, i) ensures all[i].peer in grown && grown[all[i].peer] == all[i].transport {
      LastOfPeerSteps(addrs, a, i);
    }
    if DistinctPeers(all) {
      DistinctSteps(addrs, a);
      assert grown.Keys == table.Keys + {a.peer};
    }
  }

  lemma CollectLast(addrs: seq<Address>)
    requires addrs != [] && AllProper(addrs)
    ensures var front, last := addrs[..|addrs| - 1], addrs[|addrs| - 1];
            Collect(Wholes(addrs)) == Collect(Wholes(front))[last.peer := last.transport]
  {
    var n := |addrs| - 1;
    assert Wholes(addrs)[..n] == Wholes(addrs[..n]);
    PairOfWhole(addrs[n]);
  }

  lemma EmptyTable()
    ensures IsTable(Collect(Wholes([])), [])
  {
    assert Collect(Wholes([])) == map[];
  }

  lemma ProperFront(addrs: seq<Address>)
    requires addrs != [] && AllProper(addrs)
    ensures AllProper(addrs[..|addrs| - 1])
  {
  }

  lemma CollectStep(front: seq<Address>, last: Address, table: map<Str, Str>)
    requires AllProper(front + [last]) && table == Collect(Wholes(front)) && IsTable(table, front)
    ensures IsTable(Collect(Wholes(front + [last])), front + [last])
  {
    CollectLast(front + [last]);
    assert (front + [last])[..|front|] == front;
    TableGrows(table, front, last);
  }

  lemma {:induction false} CollectWholes(addrs: seq<Address>)
    requires AllProper(addrs)
    ensures IsTable(Collect(Wholes(addrs)), addrs)
  {
    if addrs == [] {
      EmptyTable();
    } else {
      var front, last := addrs[..|addrs| - 1], addrs[|addrs| - 1];
      ProperFront(addrs);
      CollectWholes(front);
      assert addrs == front + [last];
      CollectStep(front, last, Collect(Wholes(front)));
    }
  }

  lemma NulPair(tail: Str)
    requires |tail| <= 2
    ensures PairOf(tail) == ([], tail)
  {
    SplitOfWhole(tail, P2P);
  }

  lemma CollectTail(items: seq<Str>, tail: Str)
    requires |tail| <= 2
    ensures Collect(items + [tail]) == Collect(items)[[] := tail]
  {
    NulPair(tail);
    assert (items + [tail])[..|items|] == items;
  }

  lemma ReadTable(items: seq<Str>, text: Str, trailing: bool)
    requires ListItems(items) && Texts(items) && [] !in items && Shows(text, EncodeList(items), trailing)
    ensures ParseMultiaddresses(Parsed(text)) ==
            if items == [] || trailing then Collect(items)[[] := Tail(items, trailing)] else Collect(items)
  {
    ReadList(items, text, trailing);
    ExtractedList(items, Tail(items, trailing));
    WithoutAbsent(items, []);
    CollectTail(items, Tail(items, trailing));
    assert items + [] == items;
  }

  lemma WholesAreNotEmpty(addrs: seq<Address>)
    ensures [] !in Wholes(addrs)
  {
    assert forall i :: 0 <= i < |addrs| ==> |Whole(addrs[i])| >= |P2P|;
  }

  /** The table read from the addresses that the contract encoded maps every peer to the transport part of
      its last address; an empty list or a trailing comma adds one entry with an empty peer, so the number
      of entries is off by one in just these cases. */
  lemma AddressesComeBack(addrs: seq<Address>, text: Str, trailing: bool)
    requires AllProper(addrs) && ListItems(Wholes(addrs)) && Texts(Wholes(addrs))
    requires Shows(text, EncodeList(Wholes(addrs)), trailing)
    ensures var read := ParseMultiaddresses(Parsed(text));
            exists table ::
              && IsTable(table, addrs) && [] !in table
              && read == if addrs == [] || trailing then table[[] := Tail(Wholes(addrs), trailing)] else table
    ensures DistinctPeers(addrs) ==>
              |ParseMultiaddresses(Parsed(text))| == |addrs| + if addrs == [] || trailing then 1 else 0
  {
    var table := Collect(Wholes(addrs));
    CollectWholes(addrs);
    WholesAreNotEmpty(addrs);
    ReadTable(Wholes(addrs), text, trailing);
    assert !HasPeer(addrs, []);
    assert table[[] := Tail(Wholes(addrs), trailing)].Keys == table.Keys + {[]};
  }
}
