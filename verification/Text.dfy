/** Byte strings and the text operations that the gossip layer and the contract client share.

    A Rust `String` is represented by its UTF-8 bytes: equality, concatenation, hash-map lookup and
    splitting at an ASCII separator all act on those bytes. */
module Text {
  import opened Options

  type byte = x: int | 0 <= x < 256
  type Str = seq<byte>

  const PLUS: byte := 43
  const COMMA: byte := 44
  const ZERO: byte := 48
  const NINE: byte := 57
  const DOLLAR: byte := 36

  // ---------------------------------------------------------------- filtering

  /** The items of `s` that are in `x`, or, unless `inside`, those that are not. */
  function Filter(s: seq<Str>, x: set<Str>, inside: bool): seq<Str> {
    if s == [] then []
    else
      var last := s[|s| - 1];
      Filter(s[..|s| - 1], x, inside) + if (last in x) == inside then [last] else []
  }

  lemma {:induction false} FilterCounts(s: seq<Str>, x: set<Str>, inside: bool, y: Str)
    ensures multiset(Filter(s, x, inside))[y] == if (y in x) == inside then multiset(s)[y] else 0
  {
    if s == [] {
    } else {
      FilterCounts(s[..|s| - 1], x, inside, y);
      assert s == s[..|s| - 1] + [s[|s| - 1]];
    }
  }

  lemma FilterMembers(s: seq<Str>, x: set<Str>, inside: bool, y: Str)
    ensures y in Filter(s, x, inside) <==> y in s && (y in x) == inside
  {
    FilterCounts(s, x, inside, y);
    assert y in multiset(s) <==> y in s;
    assert y in multiset(Filter(s, x, inside)) <==> y in Filter(s, x, inside);
  }

  /** `t` is what `s` has at the positions `at`, in order. */
  ghost predicate Picks(t: seq<Str>, s: seq<Str>, at: seq<nat>) {
    && |at| == |t|
    && (forall k :: 0 <= k < |at| ==> at[k] < |s| && t[k] == s[at[k]])
    && (forall k, l :: 0 <= k < l < |at| ==> at[k] < at[l])
  }

  /** What is left is the kept positions, all of them, in their order. */
  lemma {:induction false} FilterPicks(s: seq<Str>, x: set<Str>, inside: bool) returns (at: seq<nat>)
    ensures Picks(Filter(s, x, inside), s, at)
    ensures forall i: nat :: i in at <==> i < |s| && ((s[i] in x) == inside)
  {
    if s == [] {
      at := [];
    } else {
      var n := |s| - 1;
      at := FilterPicks(s[..n], x, inside);
      if (s[n] in x) == inside {
        at := at + [n];
      }
    }
  }

  lemma {:induction false} FilterAll(s: seq<Str>, x: set<Str>, inside: bool)
    requires forall y :: y in s ==> ((y in x) == inside)
    ensures Filter(s, x, inside) == s
  {
    if s == [] {
    } else {
      FilterAll(s[..|s| - 1], x, inside);
      assert s == s[..|s| - 1] + [s[|s| - 1]];
    }
  }

  function Members(s: seq<Str>): set<Str> { set u | u in s }

  // ---------------------------------------------------------------- splitting at a separator

  predicate OccursAt(s: Str, sep: Str, i: nat) {
    i + |sep| <= |s| && s[i..i + |sep|] == sep
  }

  ghost predicate Contains(s: Str, sep: Str) {
    exists i: nat :: OccursAt(s, sep, i)
  }

  /** The leftmost occurrence of `sep` in `s` that starts at `from` or later. */
  function Find(s: Str, sep: Str, from: nat): (r: Option<nat>)
    requires from <= |s|
    ensures r.Some? ==> from <= r.value && OccursAt(s, sep, r.value)
    ensures r.Some? ==> forall j: nat :: from <= j < r.value ==> !OccursAt(s, sep, j)
    ensures r.None? ==> forall j: nat :: from <= j ==> !OccursAt(s, sep, j)
    decreases |s| - from
  {
    if OccursAt(s, sep, from) then Some(from)
    else if from == |s| then None
    else Find(s, sep, from + 1)
  }

  /** `str::split`: cut at every leftmost, non-overlapping occurrence. */
  function Split(s: Str, sep: Str): (parts: seq<Str>)
    requires sep != []
    ensures parts != []
    decreases |s|
  {
    match Find(s, sep, 0)
    case None => [s]
    case Some(i) => [s[..i]] + Split(s[i + |sep|..], sep)
  }

  function Join(parts: seq<Str>, sep: Str): Str
    requires parts != []
  {
    if |parts| == 1 then parts[0] else parts[0] + sep + Join(parts[1..], sep)
  }

  /** A field that can be followed by `sep` and still be cut exactly at its own end. */
  ghost predicate Clean(a: Str, sep: Str) {
    forall j: nat :: j < |a| ==> !OccursAt(a + sep, sep, j)
  }

  lemma {:induction false} JoinOfSplit(s: Str, sep: Str)
    requires sep != []
    ensures Join(Split(s, sep), sep) == s
    decreases |s|
  {
    match Find(s, sep, 0)
    case None =>
    case Some(i) =>
      var rest := Split(s[i + |sep|..], sep);
      JoinOfSplit(s[i + |sep|..], sep);
      assert ([s[..i]] + rest)[1..] == rest;
      assert s == s[..i] + sep + s[i + |sep|..];
  }

  // An occurrence that starts inside `a` ends inside `a + sep`, whatever follows.
  lemma OccursInFront(a: Str, sep: Str, rest: Str, j: nat)
    requires j < |a|
    ensures OccursAt(a + sep + rest, sep, j) <==> OccursAt(a + sep, sep, j)
  {
    assert (a + sep + rest)[j..j + |sep|] == (a + sep)[j..j + |sep|];
  }

  lemma FirstCut(a: Str, sep: Str, rest: Str)
    requires sep != []
    ensures Clean(a, sep) <==> Find(a + sep + rest, sep, 0) == Some(|a|)
  {
    var s := a + sep + rest;
    assert s[|a|..|a| + |sep|] == sep;
    assert OccursAt(s, sep, |a|);
    forall j: nat | j < |a| ensures OccursAt(s, sep, j) <==> OccursAt(a + sep, sep, j) {
      OccursInFront(a, sep, rest, j);
    }
  }

  lemma SplitCons(a: Str, sep: Str, rest: Str)
    requires sep != [] && Clean(a, sep)
    ensures Split(a + sep + rest, sep) == [a] + Split(rest, sep)
  {
    FirstCut(a, sep, rest);
    var s := a + sep + rest;
    assert s[..|a|] == a;
    assert s[|a| + |sep|..] == rest;
  }

  ghost predicate Splittable(fields: seq<Str>, sep: Str)
    requires fields != []
  {
    && (forall k :: 0 <= k < |fields| - 1 ==> Clean(fields[k], sep))
    && !Contains(fields[|fields| - 1], sep)
  }

  lemma SplittableCons(a: Str, rest: seq<Str>, sep: Str)
    requires rest != []
    ensures Splittable([a] + rest, sep) <==> Clean(a, sep) && Splittable(rest, sep)
  {
    var fields := [a] + rest;
    assert fields[|fields| - 1] == rest[|rest| - 1];
    assert forall k :: 0 <= k < |rest| ==> rest[k] == fields[k + 1];
    if Splittable(fields, sep) {
      assert Clean(fields[0], sep);
      forall k | 0 <= k < |rest| - 1 ensures Clean(rest[k], sep) {
        assert Clean(fields[k + 1], sep);
      }
    }
  }

  // A dirty field is cut too early.
  lemma DirtyCut(a: Str, sep: Str, rest: Str)
    requires sep != [] && !Clean(a, sep)
    ensures Split(a + sep + rest, sep)[0] != a
  {
    FirstCut(a, sep, rest);
    var s := a + sep + rest;
    assert OccursAt(s, sep, |a|) by {
      assert s[|a|..|a| + |sep|] == sep;
    }
    assert Find(s, sep, 0).value < |a|;
  }

  /** Splitting undoes joining exactly for lists whose fields are clean. */
  lemma {:induction false} SplitOfJoin(fields: seq<Str>, sep: Str)
    requires sep != [] && fields != []
    ensures Split(Join(fields, sep), sep) == fields <==> Splittable(fields, sep)
    decreases |fields|
  {
    var a, rest := fields[0], fields[1..];
    if rest == [] {
      SplitOfWhole(a, sep);
      assert fields == [a];
    } else {
      var tail := Join(rest, sep);
      assert fields == [a] + rest;
      SplitOfJoin(rest, sep);
      SplittableCons(a, rest, sep);
      if Clean(a, sep) {
        SplitCons(a, sep, tail);
        assert ([a] + Split(tail, sep))[1..] == Split(tail, sep);
        assert ([a] + rest)[1..] == rest;
      } else {
        DirtyCut(a, sep, tail);
      }
    }
  }

  lemma SplitOfWhole(a: Str, sep: Str)
    requires sep != []
    ensures Split(a, sep) == [a] <==> !Contains(a, sep)
  {
    match Find(a, sep, 0)
    case None =>
    case Some(i) =>
      assert Contains(a, sep);
      assert |Split(a, sep)| >= 2;
  }

  /** The separators "$$" and "$$$" are runs of one character. */
  function Repeat(c: byte, n: nat): (s: Str)
    ensures |s| == n && forall k :: 0 <= k < n ==> s[k] == c
  {
    if n == 0 then [] else [c] + Repeat(c, n - 1)
  }

  ghost predicate EndsWith(a: Str, c: byte) {
    a != [] && a[|a| - 1] == c
  }

  lemma CleanForRepeat(a: Str, c: byte, n: nat)
    requires n > 0
    ensures Clean(a, Repeat(c, n)) <==> !Contains(a, Repeat(c, n)) && !EndsWith(a, c)
  {
    var sep := Repeat(c, n);
    var s := a + sep;
    forall j: nat | j < |a| && OccursAt(s, sep, j) ensures Contains(a, sep) || EndsWith(a, c) {
      if j + n <= |a| {
        assert s[j..j + n] == a[j..j + n];
        assert OccursAt(a, sep, j);
      } else {
        assert sep[|a| - 1 - j] == s[j..j + n][|a| - 1 - j] == a[|a| - 1];
      }
    }
    if Contains(a, sep) {
      var j: nat :| OccursAt(a, sep, j);
      assert s[j..j + n] == a[j..j + n];
      assert OccursAt(s, sep, j);
    }
    if EndsWith(a, c) {
      var j := |a| - 1;
      var piece := s[j..j + n];
      assert forall k :: 0 <= k < n ==> piece[k] == c;
      assert piece == sep;
      assert OccursAt(s, sep, j);
    }
  }

  // ---------------------------------------------------------------- numbers and booleans

  predicate IsDigit(b: byte) { ZERO <= b <= NINE }

  predicate AllDigits(s: Str) { forall i :: 0 <= i < |s| ==> IsDigit(s[i]) }

  function Value(s: Str): nat
    requires AllDigits(s)
  {
    if s == [] then 0 else 10 * Value(s[..|s| - 1]) + (s[|s| - 1] - ZERO)
  }

  /** `Display` of an unsigned integer. */
  function Print(n: nat): (s: Str)
    ensures s != [] && AllDigits(s)
  {
    if n < 10 then [ZERO + n] else Print(n / 10) + [ZERO + n % 10]
  }

  /** `str::parse` for an unsigned integer below `limit`: one leading plus sign is accepted, and an
      empty text, a stray character or an overflow is an error. */
  function ParseUnsigned(s: Str, limit: nat): (r: Option<nat>)
    ensures r.Some? ==> r.value < limit
  {
    var body := if |s| > 1 && s[0] == PLUS then s[1..] else s;
    if body != [] && AllDigits(body) && Value(body) < limit then Some(Value(body)) else None
  }

  function ParseOrZero(s: Str, limit: nat): nat {
    ParseUnsigned(s, limit).UnwrapOr(0)
  }

  lemma {:induction false} ValueOfPrint(n: nat)
    ensures Value(Print(n)) == n
  {
    if n < 10 {
    } else {
      ValueOfPrint(n / 10);
      var s := Print(n);
      assert s[..|s| - 1] == Print(n / 10);
    }
  }

  lemma ParseOfPrint(n: nat, limit: nat)
    ensures ParseUnsigned(Print(n), limit) == if n < limit then Some(n) else None
  {
    ValueOfPrint(n);
    assert IsDigit(Print(n)[0]);
  }

  lemma DigitsAppend(s: Str, d: byte)
    requires AllDigits(s) && IsDigit(d)
    ensures AllDigits(s + [d]) && Value(s + [d]) == 10 * Value(s) + (d - ZERO)
  {
    assert (s + [d])[..|s|] == s;
  }

  /** Digits are zeros and then the printed value. */
  lemma {:induction false} DigitsArePrinted(s: Str) returns (zeros: nat)
    requires AllDigits(s) && s != []
    ensures s == Repeat(ZERO, zeros) + Print(Value(s))
  {
    var front, last := s[..|s| - 1], s[|s| - 1];
    zeros := 0;
    if front == [] {
      assert s == [] + [last] && Value(s) == last - ZERO;
    } else {
      zeros := DigitsArePrinted(front);
      assert s == front + [last];
      if Value(front) == 0 {
        assert Repeat(ZERO, zeros + 1) == Repeat(ZERO, zeros) + [ZERO];
        zeros := zeros + 1;
      }
    }
  }

  lemma {:induction false} PrintedDigits(zeros: nat, n: nat)
    ensures var s := Repeat(ZERO, zeros) + Print(n); AllDigits(s) && s != [] && Value(s) == n
  {
    if zeros == 0 {
      ValueOfPrint(n);
      assert Repeat(ZERO, 0) + Print(n) == Print(n);
    } else {
      var rest := Repeat(ZERO, zeros - 1) + Print(n);
      PrintedDigits(zeros - 1, n);
      LeadingZero(rest);
      OneZeroMore(zeros, Print(n));
    }
  }

  lemma OneZeroMore(zeros: nat, s: Str)
    requires zeros > 0
    ensures Repeat(ZERO, zeros) + s == [ZERO] + (Repeat(ZERO, zeros - 1) + s)
  {
  }

  lemma {:induction false} LeadingZero(s: Str)
    requires AllDigits(s)
    ensures AllDigits([ZERO] + s) && Value([ZERO] + s) == Value(s)
  {
    if s == [] {
      assert [ZERO] + s == [] + [ZERO];
      DigitsAppend([], ZERO);
    } else {
      var front, last := s[..|s| - 1], s[|s| - 1];
      LeadingZero(front);
      DigitsAppend([ZERO] + front, last);
      assert [ZERO] + s == ([ZERO] + front) + [last];
    }
  }

  function Padded(plus: bool, zeros: nat, n: nat): Str {
    (if plus then [PLUS] else []) + (Repeat(ZERO, zeros) + Print(n))
  }

  /** A numeral of `n`: perhaps a plus sign, perhaps zeros, and the printed number. */
  ghost predicate Numeral(s: Str, n: nat) { exists plus: bool, zeros: nat :: s == Padded(plus, zeros, n) }

  lemma ParsedIsNumeral(s: Str, limit: nat)
    requires ParseUnsigned(s, limit).Some?
    ensures Numeral(s, ParseUnsigned(s, limit).value)
  {
    var signed := |s| > 1 && s[0] == PLUS;
    var body := if signed then s[1..] else s;
    var zeros := DigitsArePrinted(body);
    assert s == Padded(signed, zeros, Value(body));
  }

  lemma DigitsParse(plus: bool, digits: Str, limit: nat)
    requires AllDigits(digits) && digits != []
    ensures ParseUnsigned((if plus then [PLUS] else []) + digits, limit) ==
            if Value(digits) < limit then Some(Value(digits)) else None
  {
    var s := (if plus then [PLUS] else []) + digits;
    assert IsDigit(digits[0]);
    assert (if plus then s[1..] else s) == digits;
  }

  lemma NumeralParses(plus: bool, zeros: nat, n: nat, limit: nat)
    ensures ParseUnsigned(Padded(plus, zeros, n), limit) == if n < limit then Some(n) else None
  {
    PrintedDigits(zeros, n);
    DigitsParse(plus, Repeat(ZERO, zeros) + Print(n), limit);
  }

  /** A text parses to a number exactly when it is a numeral of it, below the limit. */
  lemma ParseExactly(s: Str, limit: nat, n: nat)
    ensures ParseUnsigned(s, limit) == Some(n) <==> n < limit && Numeral(s, n)
  {
    if ParseUnsigned(s, limit) == Some(n) {
      ParsedIsNumeral(s, limit);
    } else if Numeral(s, n) {
      var plus, zeros :| s == Padded(plus, zeros, n);
      NumeralParses(plus, zeros, n, limit);
    }
  }

  const TRUE: Str := [116, 114, 117, 101]
  const FALSE: Str := [102, 97, 108, 115, 101]

  function PrintBool(b: bool): Str { if b then TRUE else FALSE }

  /** `parse::<bool>().unwrap_or_default()`: anything but "true" reads as false. */
  function ParseBool(s: Str): bool { s == TRUE }

  // ---------------------------------------------------------------- UTF-8 validity

  predicate Continuation(b: byte) { 0x80 <= b <= 0xBF }

  /** Length of the well-formed scalar at the front of `s` (Unicode 15.0, table 3-7), or 0. */
  function ScalarLength(s: Str): (n: nat)
    ensures n <= |s|
  {
    if s == [] then 0
    else if s[0] < 0x80 then 1
    else if |s| >= 2 && 0xC2 <= s[0] <= 0xDF && Continuation(s[1]) then 2
    else if |s| >= 3 && 0xE0 <= s[0] <= 0xEF && Continuation(s[1]) && Continuation(s[2])
            && (s[0] == 0xE0 ==> s[1] >= 0xA0) && (s[0] == 0xED ==> s[1] <= 0x9F) then 3
    else if |s| >= 4 && 0xF0 <= s[0] <= 0xF4 && Continuation(s[1]) && Continuation(s[2]) && Continuation(s[3])
            && (s[0] == 0xF0 ==> s[1] >= 0x90) && (s[0] == 0xF4 ==> s[1] <= 0x8F) then 4
    else 0
  }

  predicate Utf8(s: Str) {
    s == [] || (ScalarLength(s) > 0 && Utf8(s[ScalarLength(s)..]))
  }

  /** `String::from_utf8(..).unwrap_or_default()` */
  function FromUtf8(s: Str): Str { if Utf8(s) then s else [] }

  lemma {:induction false} Utf8Append(a: Str, b: Str)
    requires Utf8(a) && Utf8(b)
    ensures Utf8(a + b)
  {
    if a == [] {
      assert a + b == b;
    } else {
      var n := ScalarLength(a);
      assert ScalarLength(a + b) == n;
      assert (a + b)[n..] == a[n..] + b;
      Utf8Append(a[n..], b);
    }
  }

  lemma {:induction false} AsciiIsUtf8(s: Str)
    requires forall i :: 0 <= i < |s| ==> s[i] < 0x80
    ensures Utf8(s)
  {
    if s == [] {
    } else {
      AsciiIsUtf8(s[1..]);
    }
  }

  /** A Unicode scalar value. */
  predicate Scalar(c: nat) { c < 0xD800 || 0xE000 <= c <= 0x10FFFF }

  /** Its UTF-8 encoding (section 3 of RFC 3629). */
  function Encode(c: nat): (s: Str)
    requires Scalar(c)
    ensures s != []
  {
    if c < 0x80 then [c]
    else if c < 0x800 then [0xC0 + c / 0x40, 0x80 + c % 0x40]
    else if c < 0x10000 then [0xE0 + c / 0x1000, 0x80 + c / 0x40 % 0x40, 0x80 + c % 0x40]
    else [0xF0 + c / 0x40000, 0x80 + c / 0x1000 % 0x40, 0x80 + c / 0x40 % 0x40, 0x80 + c % 0x40]
  }

  function EncodeAll(cs: seq<nat>): Str
    requires forall i :: 0 <= i < |cs| ==> Scalar(cs[i])
  {
    if cs == [] then [] else Encode(cs[0]) + EncodeAll(cs[1..])
  }

  lemma EncodedLength(c: nat, rest: Str)
    requires Scalar(c)
    ensures ScalarLength(Encode(c) + rest) == |Encode(c)|
  {
  }

  lemma DecodePair(a: byte, b: byte) returns (c: nat)
    requires 0xC2 <= a <= 0xDF && Continuation(b)
    ensures Scalar(c) && Encode(c) == [a, b]
  {
    c := (a as int - 0xC0) * 0x40 + (b as int - 0x80);
  }

  lemma DecodeTriple(a: byte, b: byte, d: byte) returns (c: nat)
    requires 0xE0 <= a <= 0xEF && Continuation(b) && Continuation(d)
    requires (a == 0xE0 ==> b >= 0xA0) && (a == 0xED ==> b <= 0x9F)
    ensures Scalar(c) && Encode(c) == [a, b, d]
  {
    var high := (a as int - 0xE0) * 0x40 + (b as int - 0x80);
    c := high * 0x40 + (d as int - 0x80);
    assert c / 0x40 == high;
  }

  lemma DecodeQuadruple(a: byte, b: byte, d: byte, e: byte) returns (c: nat)
    requires 0xF0 <= a <= 0xF4 && Continuation(b) && Continuation(d) && Continuation(e)
    requires (a == 0xF0 ==> b >= 0x90) && (a == 0xF4 ==> b <= 0x8F)
    ensures Scalar(c) && Encode(c) == [a, b, d, e]
  {
    var high := (a as int - 0xF0) * 0x40 + (b as int - 0x80);
    var middle := high * 0x40 + (d as int - 0x80);
    c := middle * 0x40 + (e as int - 0x80);
    assert c / 0x40 == middle && middle / 0x40 == high;
    assert c / 0x1000 == high && c / 0x40000 == high / 0x40;
  }

  /** The scalar at the front of well-formed text. */
  lemma DecodeFront(s: Str) returns (c: nat)
    requires ScalarLength(s) > 0
    ensures Scalar(c) && s == Encode(c) + s[ScalarLength(s)..]
  {
    var n := ScalarLength(s);
    if n == 1 {
      c := s[0];
      assert s[..1] == [s[0]];
    } else if n == 2 {
      c := DecodePair(s[0], s[1]);
      assert s[..2] == [s[0], s[1]];
    } else if n == 3 {
      c := DecodeTriple(s[0], s[1], s[2]);
      assert s[..3] == [s[0], s[1], s[2]];
    } else {
      c := DecodeQuadruple(s[0], s[1], s[2], s[3]);
      assert s[..4] == [s[0], s[1], s[2], s[3]];
    }
    assert s == s[..n] + s[n..];
  }

  /** Exactly the encodings of scalar values are valid. */
  lemma {:induction false} Utf8Exactly(s: Str)
    ensures Utf8(s) <==> exists cs: seq<nat> :: (forall i :: 0 <= i < |cs| ==> Scalar(cs[i])) && s == EncodeAll(cs)
    decreases |s|
  {
    if Utf8(s) {
      var cs := Decoded(s);
    }
    if cs: seq<nat> :| (forall i :: 0 <= i < |cs| ==> Scalar(cs[i])) && s == EncodeAll(cs) {
      EncodedIsUtf8(cs);
    }
  }

  lemma {:induction false} Decoded(s: Str) returns (cs: seq<nat>)
    requires Utf8(s)
    ensures (forall i :: 0 <= i < |cs| ==> Scalar(cs[i])) && s == EncodeAll(cs)
    decreases |s|
  {
    if s == [] {
      cs := [];
    } else {
      var c := DecodeFront(s);
      cs := Decoded(s[ScalarLength(s)..]);
      cs := [c] + cs;
    }
  }

  lemma {:induction false} EncodedIsUtf8(cs: seq<nat>)
    requires forall i :: 0 <= i < |cs| ==> Scalar(cs[i])
    ensures Utf8(EncodeAll(cs))
  {
    if cs == [] {
    } else {
      var rest := EncodeAll(cs[1..]);
      EncodedIsUtf8(cs[1..]);
      EncodedLength(cs[0], rest);
      assert (Encode(cs[0]) + rest)[|Encode(cs[0])|..] == rest;
    }
  }
}
