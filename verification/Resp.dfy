/**
 The Redis serialization protocol (RESP2) as redisQueue prints and parses it, over bytes.
 Text is bytes here: the UTF-8 decoding of toString is left out.
 */
module Resp {
  import opened Options
  import opened Doubles

  type byte = b: int | 0 <= b < 256

  type bytes = seq<byte>

  const CRLF: bytes := [13, 10]
  const PLUS: byte := 43
  const MINUS: byte := 45
  const COLON: byte := 58
  const DOLLAR: byte := 36
  const STAR: byte := 42

  // ---------------------------------------------------------------- decimal numbers

  predicate AllDigits(s: bytes) { forall i :: 0 <= i < |s| ==> 48 <= s[i] <= 57 }

  function Digits(n: nat): (s: bytes)
    ensures |s| > 0 && AllDigits(s)
  {
    if n < 10 then [48 + n] else Digits(n / 10) + [48 + n % 10]
  }

  function DigitsValue(s: bytes): nat
    requires AllDigits(s)
  {
    if s == [] then 0 else 10 * DigitsValue(s[..|s| - 1]) + (s[|s| - 1] - 48)
  }

  function Decimal(n: int): bytes { if n < 0 then [MINUS] + Digits(-n) else Digits(n) }

  /** The integer that a decimal with an optional sign stands for; None stands for any other text. */
  function Number(s: bytes): Option<int> {
    if s == [] then None
    else if AllDigits(s) then Some(DigitsValue(s))
    else if |s| > 1 && s[0] == MINUS && AllDigits(s[1..]) then Some(0 - DigitsValue(s[1..]))
    else if |s| > 1 && s[0] == PLUS && AllDigits(s[1..]) then Some(DigitsValue(s[1..]))
    else None
  }

  lemma {:induction false} DigitsRoundTrip(n: nat)
    ensures DigitsValue(Digits(n)) == n
    decreases n
  {
    if n >= 10 {
      DigitsRoundTrip(n / 10);
      assert Digits(n)[..|Digits(n)| - 1] == Digits(n / 10);
    } else {
      assert Digits(n)[..0] == [];
    }
  }

  lemma NumberRoundTrip(n: int)
    ensures Number(Decimal(n)) == Some(n)
  {
    if n < 0 {
      DigitsRoundTrip(-n);
      assert Decimal(n)[1..] == Digits(-n);
    } else {
      DigitsRoundTrip(n);
    }
  }

  // ---------------------------------------------------------------- the parser

  predicate CrlfAt(b: bytes, i: int) { 0 <= i < |b| - 1 && b[i] == 13 && b[i + 1] == 10 }

  /** buffer.indexOf of the line end, at or after offset from. */
  function FindCrlf(b: bytes, from: nat): (r: Option<nat>)
    ensures r.Some? ==> from <= r.value && CrlfAt(b, r.value) && forall i :: from <= i < r.value ==> !CrlfAt(b, i)
    ensures r.None? ==> forall i :: from <= i ==> !CrlfAt(b, i)
    decreases |b| - from
  {
    if from + 1 >= |b| then None
    else if CrlfAt(b, from) then Some(from)
    else FindCrlf(b, from + 1)
  }

  /**
   A value. Missing is the undefined that an error inside an array leaves behind; Problem is what such
   an error denotes by the protocol, and no parse yields it.
   */
  datatype Value = Null | Text(text: bytes) | Num(n: int) | List(items: seq<Value>) | Missing | Problem(message: bytes)

  datatype Reason = FromServer(message: bytes) | UnsupportedType(kind: byte)

  /**
   Outside: an integer line that is no decimal of 64 bits, or a length line that is no decimal of at
   least -1; not modelled.
   */
  datatype Parsed =
    | Incomplete
    | Done(value: Value, next: nat)
    | Rejected(reason: Reason, next: nat)
    | Outside
  {
    predicate Complete() { Done? || Rejected? }

    /** item.value in the array loop. */
    function Item(): Value
      requires Complete()
    {
      if Done? then value else Missing
    }
  }

  /** The first byte of a reply, the rest of its first line, and where the next line begins. */
  datatype Header = Header(kind: byte, line: bytes, next: nat)

  function ReadHeader(b: bytes, o: nat): (r: Option<Header>)
    ensures r.Some? ==> o + 2 <= r.value.next <= |b|
  {
    if |b| <= o then None
    else
      var lineEnd := FindCrlf(b, o);
      if lineEnd.None? then None
      else Some(Header(b[o], if lineEnd.value == o then [] else b[o + 1..lineEnd.value], lineEnd.value + 2))
  }

  /**
   A length line: None stands for text that is not a decimal of at least -1. Lengths are left exact,
   which RoundedIsParse justifies.
   */
  function Length(line: bytes): (r: Option<int>)
    ensures r.Some? ==> r.value >= -1
  {
    var n := Number(line);
    if n.Some? && n.value >= -1 then n else None
  }

  /** The integers of the protocol: 64 bits, signed. */
  predicate SixtyFourBits(n: int) { -0x8000_0000_0000_0000 <= n < 0x8000_0000_0000_0000 }

  /** Number(line) is a double: the caller gets the one nearest to the integer on the line. */
  function ParseInteger(h: Header): Parsed {
    var n := Number(h.line);
    if n.Some? && SixtyFourBits(n.value) then Done(Num(ToDouble(n.value)), h.next) else Outside
  }

  function ParseBulk(b: bytes, h: Header): (r: Parsed)
    requires h.next <= |b|
    ensures r.Complete() ==> h.next <= r.next <= |b|
  {
    var length := Length(h.line);
    if length.None? then Outside else BulkOf(b, h.next, length.value)
  }

  /** The bulk string of this length that begins at offset next. */
  function BulkOf(b: bytes, next: nat, length: int): (r: Parsed)
    requires next <= |b| && length >= -1
    ensures r.Complete() ==> next <= r.next <= |b|
  {
    if length == -1 then Done(Null, next)
    else if |b| < next + length + 2 then Incomplete
    else Done(Text(b[next..next + length]), next + length + 2)
  }

  /** parseReply. A complete parse always advances, which is why the recursion ends. */
  function Parse(b: bytes, o: nat): (r: Parsed)
    ensures r.Complete() ==> o < r.next <= |b|
    decreases |b| - o, 0
  {
    var header := ReadHeader(b, o);
    if header.None? then Incomplete
    else
      var h := header.value;
      if h.kind == PLUS then Done(Text(h.line), h.next)
      else if h.kind == MINUS then Rejected(FromServer(h.line), h.next)
      else if h.kind == COLON then ParseInteger(h)
      else if h.kind == DOLLAR then ParseBulk(b, h)
      else if h.kind == STAR then
        var length := Length(h.line);
        if length.None? then Outside
        else if length.value == -1 then Done(Null, h.next)
        else ParseItems(b, h.next, length.value)
      else Rejected(UnsupportedType(h.kind), h.next)
  }

  /** The array loop: n items from cursor c on. */
  function ParseItems(b: bytes, c: nat, n: nat): (r: Parsed)
    requires c <= |b|
    ensures r.Complete() ==> r.Done? && c <= r.next <= |b| && r.value.List?
    decreases |b| - c, 1
  {
    if n == 0 then Done(List([]), c)
    else
      var item := Parse(b, c);
      if item.Complete() then Prepend([item.Item()], ParseItems(b, item.next, n - 1)) else item
  }

  /** Values put in front of those of a parsed array. */
  function Prepend(values: seq<Value>, r: Parsed): Parsed {
    if r.Done? && r.value.List? then Done(List(values + r.value.items), r.next) else r
  }

  /** parseReply with its loop over values and cursor. */
  method ParseReply(buffer: bytes, offset: nat) returns (r: Parsed)
    ensures r == Parse(buffer, offset)
    decreases |buffer| - offset, 1
  {
    var header := ReadHeader(buffer, offset);
    if header == None {
      return Incomplete;
    }
    var h := header.value;
    if h.kind == PLUS {
      return Done(Text(h.line), h.next);
    }
    if h.kind == MINUS {
      return Rejected(FromServer(h.line), h.next);
    }
    if h.kind == COLON {
      return ParseInteger(h);
    }
    if h.kind == DOLLAR {
      return ParseBulk(buffer, h);
    }
    if h.kind == STAR {
      var length := Length(h.line);
      if length == None {
        return Outside;
      }
      if length.value == -1 {
        return Done(Null, h.next);
      }
      r := ParseArray(buffer, h.next, length.value);
      return;
    }
    return Rejected(UnsupportedType(h.kind), h.next);
  }

  method ParseArray(buffer: bytes, start: nat, length: nat) returns (r: Parsed)
    requires start <= |buffer|
    ensures r == ParseItems(buffer, start, length)
    decreases |buffer| - start, 2
  {
    hide Parse;
    var values, cursor := [], start;
    for i := 0 to length
      invariant start <= cursor <= |buffer|
      invariant ParseItems(buffer, start, length) == Prepend(values, ParseItems(buffer, cursor, length - i))
    {
      var item := ParseReply(buffer, cursor);
      if !item.Complete() {
        return item;
      }
      PrependOne(values, item.Item(), ParseItems(buffer, item.next, length - i - 1));
      values := values + [item.Item()];
      cursor := item.next;
    }
    return Done(List(values), cursor);
  }

  lemma PrependOne(values: seq<Value>, v: Value, r: Parsed)
    ensures Prepend(values + [v], r) == Prepend(values, Prepend([v], r))
  {
    if r.Done? && r.value.List? {
      assert values + [v] + r.value.items == values + ([v] + r.value.items);
    }
  }

  // ---------------------------------------------------------------- more bytes change nothing

  lemma HeaderStays(b: bytes, x: bytes, o: nat)
    requires ReadHeader(b, o).Some?
    ensures ReadHeader(b + x, o) == ReadHeader(b, o)
  {
    var e := FindCrlf(b, o).value;
    assert CrlfAt(b + x, e);
    var f := FindCrlf(b + x, o).value;
    assert f <= e;
    assert CrlfAt(b + x, f) && CrlfAt(b, f);
    assert e > o ==> (b + x)[o + 1..e] == b[o + 1..e];
  }

  /** Appending bytes never changes a parse that was complete. */
  lemma {:induction false} ParseStays(b: bytes, x: bytes, o: nat)
    requires !Parse(b, o).Incomplete?
    ensures Parse(b + x, o) == Parse(b, o)
    decreases |b| - o, 0
  {
    hide ReadHeader, Number, ParseItems;
    HeaderStays(b, x, o);
    var h := ReadHeader(b, o).value;
    if h.kind == DOLLAR {
      BulkStays(b, x, h);
    } else if h.kind == STAR && Length(h.line).Some? && Length(h.line).value >= 0 {
      ItemsStay(b, x, h.next, Length(h.line).value);
    }
  }

  lemma BulkStays(b: bytes, x: bytes, h: Header)
    requires h.next <= |b| && !ParseBulk(b, h).Incomplete?
    ensures ParseBulk(b + x, h) == ParseBulk(b, h)
  {
    var length := Length(h.line);
    if length.Some? && length.value >= 0 {
      assert (b + x)[h.next..h.next + length.value] == b[h.next..h.next + length.value];
    }
  }

  lemma {:induction false} ItemsStay(b: bytes, x: bytes, c: nat, n: nat)
    requires c <= |b| && !ParseItems(b, c, n).Incomplete?
    ensures ParseItems(b + x, c, n) == ParseItems(b, c, n)
    decreases |b| - c, 1
  {
    hide Parse;
    if n > 0 {
      ParseStays(b, x, c);
      if Parse(b, c).Complete() {
        ItemsStay(b, x, Parse(b, c).next, n - 1);
      }
    }
  }

  // ---------------------------------------------------------------- well-formed replies

  /** A reply a server sends. */
  datatype Reply =
    | Simple(text: bytes)
    | Failure(text: bytes)
    | Integer(n: int)
    | Bulk(data: bytes)
    | NullBulk
    | NullArray
    | Array(items: seq<Reply>)

  ghost predicate OneLine(t: bytes) { forall i :: !CrlfAt(t, i) }

  ghost predicate WellFormed(r: Reply) {
    match r
    case Simple(t) => OneLine(t)
    case Failure(t) => OneLine(t)
    case Integer(n) => SixtyFourBits(n)
    case Array(items) => forall i :: 0 <= i < |items| ==> WellFormed(items[i])
    case _ => true
  }

  function Line(kind: byte, text: bytes): bytes { [kind] + text + CRLF }

  function Encode(r: Reply): bytes
    decreases r
  {
    match r
    case Simple(t) => Line(PLUS, t)
    case Failure(t) => Line(MINUS, t)
    case Integer(n) => Line(COLON, Decimal(n))
    case Bulk(d) => Line(DOLLAR, Digits(|d|)) + d + CRLF
    case NullBulk => Line(DOLLAR, Decimal(-1))
    case NullArray => Line(STAR, Decimal(-1))
    case Array(items) => Line(STAR, Digits(|items|)) + EncodeAll(items)
  }

  function EncodeAll(items: seq<Reply>): bytes
    decreases items
  {
    if items == [] then [] else Encode(items[0]) + EncodeAll(items[1..])
  }

  /** The value a caller receives; an error nested in an array is lost as Missing. */
  function ValueOf(r: Reply): Value
    decreases r
  {
    match r
    case Simple(t) => Text(t)
    case Failure(_) => Missing
    case Integer(n) => Num(ToDouble(n))
    case Bulk(d) => Text(d)
    case NullBulk => Null
    case NullArray => Null
    case Array(items) => List(Values(items))
  }

  function Values(items: seq<Reply>): seq<Value>
    decreases items
  {
    if items == [] then [] else [ValueOf(items[0])] + Values(items[1..])
  }

  /** What parsing this reply gives when it ends at offset next. */
  function Outcome(r: Reply, next: nat): Parsed {
    if r.Failure? then Rejected(FromServer(r.text), next) else Done(ValueOf(r), next)
  }

  // ---------------------------------------------------------------- round trips

  /** The header read after pre is the line that was written there. */
  lemma HeaderFound(pre: bytes, kind: byte, text: bytes, rest: bytes)
    requires kind != 13 && OneLine(text)
    ensures ReadHeader(pre + Line(kind, text) + rest, |pre|) == Some(Header(kind, text, |pre| + |Line(kind, text)|))
  {
    var b := pre + Line(kind, text) + rest;
    var e := |pre| + 1 + |text|;
    assert b[|pre|] == kind && b[e] == 13 && b[e + 1] == 10;
    assert CrlfAt(b, e);
    assert b[|pre| + 1..e] == text;
    forall f | |pre| <= f < e
      ensures !CrlfAt(b, f)
    {
      if f > |pre| && f + 1 < e {
        assert b[f] == text[f - |pre| - 1] && b[f + 1] == text[f - |pre|];
        assert !CrlfAt(text, f - |pre| - 1);
      }
    }
  }

  /** Decimals are one-line texts that read back as the number. */
  lemma DecimalLine(n: int)
    ensures OneLine(Decimal(n)) && Number(Decimal(n)) == Some(n)
  {
    NumberRoundTrip(n);
  }

  lemma {:induction false} RoundTrip(pre: bytes, r: Reply, rest: bytes)
    requires WellFormed(r)
    ensures Parse(pre + Encode(r) + rest, |pre|) == Outcome(r, |pre| + |Encode(r)|)
    decreases r, 0
  {
    hide ReadHeader, Number, Decimal, Digits, ToDouble;
    match r
    case Simple(t) => HeaderFound(pre, PLUS, t, rest);
    case Failure(t) => HeaderFound(pre, MINUS, t, rest);
    case Integer(n) =>
      DecimalLine(n);
      HeaderFound(pre, COLON, Decimal(n), rest);
    case Bulk(d) => BulkRoundTrip(pre, d, rest);
    case NullBulk =>
      DecimalLine(-1);
      HeaderFound(pre, DOLLAR, Decimal(-1), rest);
    case NullArray =>
      DecimalLine(-1);
      HeaderFound(pre, STAR, Decimal(-1), rest);
    case Array(items) =>
      RoundTripAll(pre + Line(STAR, Digits(|items|)), items, rest);
      ArrayRoundTrip(pre, items, rest);
  }

  lemma BulkRoundTrip(pre: bytes, d: bytes, rest: bytes)
    ensures Parse(pre + Encode(Bulk(d)) + rest, |pre|) == Done(Text(d), |pre| + |Encode(Bulk(d))|)
  {
    hide ReadHeader, Number, Digits;
    var head := Line(DOLLAR, Digits(|d|));
    var b := pre + Encode(Bulk(d)) + rest;
    SizeLine(|d|);
    HeaderFound(pre, DOLLAR, Digits(|d|), d + CRLF + rest);
    assert b == pre + head + (d + CRLF + rest);
    var n := |pre| + |head|;
    assert b[n..n + |d|] == d;
  }

  lemma SizeLine(n: nat)
    ensures OneLine(Digits(n)) && Number(Digits(n)) == Some(n)
  {
    DecimalLine(n);
  }

  /** The header of an array followed by its items. */
  lemma ArrayRoundTrip(pre: bytes, items: seq<Reply>, rest: bytes)
    requires var head := Line(STAR, Digits(|items|));
             ParseItems(pre + head + EncodeAll(items) + rest, |pre| + |head|, |items|) ==
             Done(List(Values(items)), |pre| + |head| + |EncodeAll(items)|)
    ensures Parse(pre + Encode(Array(items)) + rest, |pre|) == Done(List(Values(items)), |pre| + |Encode(Array(items))|)
  {
    hide ReadHeader, Number, Digits, ParseItems;
    var head := Line(STAR, Digits(|items|));
    SizeLine(|items|);
    HeaderFound(pre, STAR, Digits(|items|), EncodeAll(items) + rest);
    assert pre + Encode(Array(items)) + rest == pre + head + (EncodeAll(items) + rest);
    assert pre + Encode(Array(items)) + rest == pre + head + EncodeAll(items) + rest;
  }

  lemma {:induction false} RoundTripAll(pre: bytes, items: seq<Reply>, rest: bytes)
    requires forall i :: 0 <= i < |items| ==> WellFormed(items[i])
    ensures ParseItems(pre + EncodeAll(items) + rest, |pre|, |items|) ==
              Done(List(Values(items)), |pre| + |EncodeAll(items)|)
    decreases items, 1
  {
    hide Parse, Encode;
    if items != [] {
      var first, others := Encode(items[0]), EncodeAll(items[1..]);
      var b := pre + EncodeAll(items) + rest;
      assert b == pre + first + (others + rest);
      assert b == (pre + first) + others + rest;
      RoundTrip(pre, items[0], others + rest);
      RoundTripAll(pre + first, items[1..], rest);
      assert Values(items) == [ValueOf(items[0])] + Values(items[1..]);
      assert ParseItems(b, |pre|, |items|) == Prepend([ValueOf(items[0])], ParseItems(b, |pre + first|, |items| - 1));
    }
  }

  /** A reply is self-delimiting: no proper prefix of it parses to anything. */
  lemma PrefixIncomplete(r: Reply, n: nat)
    requires WellFormed(r) && n < |Encode(r)|
    ensures Parse(Encode(r)[..n], 0) == Incomplete
  {
    hide Parse, Encode;
    var b, x := Encode(r)[..n], Encode(r)[n..];
    assert b + x == Encode(r) == [] + Encode(r) + [];
    RoundTrip([], r, []);
    if !Parse(b, 0).Incomplete? {
      ParseStays(b, x, 0);
    }
  }

  // ---------------------------------------------------------------- replies that change on the way

  /** The value a reply denotes by the protocol: integers as they were sent, and errors as errors. */
  function Denoted(r: Reply): Value
    decreases r
  {
    match r
    case Failure(t) => Problem(t)
    case Integer(n) => Num(n)
    case Array(items) => List(AllDenoted(items))
    case _ => ValueOf(r)
  }

  function AllDenoted(items: seq<Reply>): seq<Value>
    decreases items
  {
    if items == [] then [] else [Denoted(items[0])] + AllDenoted(items[1..])
  }

  /** Every integer is a double, and there is no error. */
  predicate Exact(r: Reply)
    decreases r
  {
    match r
    case Failure(_) => false
    case Integer(n) => Representable(Magnitude(n))
    case Array(items) => AllExact(items)
    case _ => true
  }

  predicate AllExact(items: seq<Reply>)
    decreases items
  {
    items == [] || (Exact(items[0]) && AllExact(items[1..]))
  }

  lemma {:induction false} ValueExactIff(r: Reply)
    ensures ValueOf(r) == Denoted(r) <==> Exact(r)
    decreases r
  {
    hide ToDouble, Representable;
    match r
    case Integer(n) => ExactIff(n);
    case Array(items) => ValuesExactIff(items);
    case _ =>
  }

  lemma {:induction false} ValuesExactIff(items: seq<Reply>)
    ensures |Values(items)| == |AllDenoted(items)|
    ensures Values(items) == AllDenoted(items) <==> AllExact(items)
    decreases items
  {
    hide ValueOf, Denoted, Exact;
    if items != [] {
      ValueExactIff(items[0]);
      ValuesExactIff(items[1..]);
      assert Values(items)[0] == ValueOf(items[0]) && Values(items)[1..] == Values(items[1..]);
      assert AllDenoted(items)[0] == Denoted(items[0]) && AllDenoted(items)[1..] == AllDenoted(items[1..]);
    }
  }

  /** What the caller of the request should learn: the value, or the error when the reply is one. */
  function DenotedOutcome(r: Reply, next: nat): Parsed {
    if r.Failure? then Rejected(FromServer(r.text), next) else Done(Denoted(r), next)
  }

  /**
   A reply parses to what it denotes exactly when it is an error itself, or every integer in it is a
   double and no error is nested in an array.
   */
  lemma ParsedExactIff(pre: bytes, r: Reply, rest: bytes)
    requires WellFormed(r)
    ensures Parse(pre + Encode(r) + rest, |pre|) == DenotedOutcome(r, |pre| + |Encode(r)|) <==> r.Failure? || Exact(r)
  {
    hide Parse, Encode, ValueOf, Denoted, Exact;
    RoundTrip(pre, r, rest);
    ValueExactIff(r);
  }

  /** An error nested in an array is lost: whatever its message, the caller gets the same value. */
  lemma NestedErrorIsLost(t: bytes)
    requires OneLine(t)
    ensures WellFormed(Array([Failure(t)]))
    ensures Parse(Encode(Array([Failure(t)])), 0) == Done(List([Missing]), |Encode(Array([Failure(t)]))|)
  {
    var r := Array([Failure(t)]);
    RoundTrip([], r, []);
    assert [] + Encode(r) + [] == Encode(r);
    assert Values(r.items) == [Missing];
  }

  /** A legal 64-bit reply that the caller receives as another number. */
  lemma IntegerReplyRounds()
    ensures WellFormed(Integer(9007199254740993))
    ensures Parse(Encode(Integer(9007199254740993)), 0) ==
            Done(Num(9007199254740992), |Encode(Integer(9007199254740993))|)
  {
    hide Parse, Encode, ToDouble;
    var r := Integer(9007199254740993);
    RoundTrip([], r, []);
    FirstInexact();
    assert [] + Encode(r) + [] == Encode(r);
  }

  /** An array that announces more items than there are bytes is not complete, however many more. */
  lemma {:induction false} TooManyItems(b: bytes, c: nat, m: nat, n: nat)
    requires c <= |b| && |b| - c < m && |b| - c < n
    ensures ParseItems(b, c, m) == ParseItems(b, c, n) && !ParseItems(b, c, m).Complete()
    decreases |b| - c
  {
    hide Parse;
    if Parse(b, c).Complete() {
      TooManyItems(b, Parse(b, c).next, m - 1, n - 1);
    }
  }

  /** A length of 2^53 or more is too long for any buffer below 2^53 bytes, rounded or not. */
  lemma LengthsMayRound(b: bytes, next: nat, n: nat)
    requires next <= |b| < EXACT
    ensures BulkOf(b, next, Nearest(n)) == BulkOf(b, next, n)
    ensures ParseItems(b, next, Nearest(n)) == ParseItems(b, next, n)
  {
    hide Nearest, Parse, ParseItems;
    if n < EXACT {
      assert Nearest(n) == n by { SmallIsExact(n); }
    } else {
      LargeStaysLarge(n);
      TooManyItems(b, next, Nearest(n), n);
    }
  }

  /** parseReply with every length read as a double, as Number gives it. */
  function RoundedParse(b: bytes, o: nat): (r: Parsed)
    ensures r.Complete() ==> o < r.next <= |b|
    decreases |b| - o, 0
  {
    var header := ReadHeader(b, o);
    if header.None? then Incomplete
    else
      var h := header.value;
      var length := Length(h.line);
      if h.kind == DOLLAR && length.Some? && length.value >= 0 then BulkOf(b, h.next, Nearest(length.value))
      else if h.kind == STAR && length.Some? && length.value >= 0 then RoundedItems(b, h.next, Nearest(length.value))
      else Parse(b, o)
  }

  function RoundedItems(b: bytes, c: nat, n: nat): (r: Parsed)
    requires c <= |b|
    ensures r.Complete() ==> r.Done? && c <= r.next <= |b| && r.value.List?
    decreases |b| - c, 1
  {
    if n == 0 then Done(List([]), c)
    else
      var item := RoundedParse(b, c);
      if item.Complete() then Prepend([item.Item()], RoundedItems(b, item.next, n - 1)) else item
  }

  /** No buffer holds 2^53 bytes, and in those that hold fewer the rounding of lengths changes no parse. */
  lemma {:induction false} RoundedIsParse(b: bytes, o: nat)
    requires |b| < EXACT
    ensures RoundedParse(b, o) == Parse(b, o)
    decreases |b| - o, 0
  {
    hide ReadHeader, Length, Nearest, BulkOf, ParseItems, RoundedItems;
    if ReadHeader(b, o).Some? {
      var h := ReadHeader(b, o).value;
      if Length(h.line).Some? && Length(h.line).value >= 0 {
        LengthsMayRound(b, h.next, Length(h.line).value);
        RoundedItemsAreItems(b, h.next, Nearest(Length(h.line).value));
      }
    }
  }

  lemma {:induction false} RoundedItemsAreItems(b: bytes, c: nat, n: nat)
    requires c <= |b| < EXACT
    ensures RoundedItems(b, c, n) == ParseItems(b, c, n)
    decreases |b| - c, 1
  {
    hide Parse, RoundedParse;
    if n > 0 {
      RoundedIsParse(b, c);
      if Parse(b, c).Complete() {
        RoundedItemsAreItems(b, Parse(b, c).next, n - 1);
      }
    }
  }

  // ---------------------------------------------------------------- commands

  function EncodeArgs(args: seq<bytes>): bytes {
    if args == [] then []
    else Line(DOLLAR, Digits(|args[0]|)) + args[0] + CRLF + EncodeArgs(args[1..])
  }

  /** encodeCommand. */
  function EncodeCommand(args: seq<bytes>): bytes {
    Line(STAR, Digits(|args|)) + EncodeArgs(args)
  }

  function Bulks(args: seq<bytes>): seq<Reply> {
    if args == [] then [] else [Bulk(args[0])] + Bulks(args[1..])
  }

  function Texts(args: seq<bytes>): seq<Value> {
    if args == [] then [] else [Text(args[0])] + Texts(args[1..])
  }

  lemma {:induction false} ArgsAreBulks(args: seq<bytes>)
    ensures EncodeArgs(args) == EncodeAll(Bulks(args)) && |Bulks(args)| == |args|
    ensures Values(Bulks(args)) == Texts(args)
    ensures forall i :: 0 <= i < |args| ==> WellFormed(Bulks(args)[i])
    decreases |args|
  {
    if args != [] {
      ArgsAreBulks(args[1..]);
      assert Bulks(args)[1..] == Bulks(args[1..]);
      assert Bulks(args)[0] == Bulk(args[0]);
    }
  }

  /** Parsing a printed command followed by anything gives its arguments and the offset where the rest begins. */
  lemma CommandRoundTrip(args: seq<bytes>, rest: bytes)
    ensures Parse(EncodeCommand(args) + rest, 0) == Done(List(Texts(args)), |EncodeCommand(args)|)
  {
    hide Parse, Line, Digits, EncodeAll, EncodeArgs, Bulks, Texts;
    ArgsAreBulks(args);
    assert Encode(Array(Bulks(args))) == EncodeCommand(args);
    RoundTrip([], Array(Bulks(args)), rest);
    assert [] + Encode(Array(Bulks(args))) + rest == EncodeCommand(args) + rest;
  }

  lemma {:induction false} TextsInjective(a: seq<bytes>, b: seq<bytes>)
    requires Texts(a) == Texts(b)
    ensures a == b
    decreases |a|
  {
    if a != [] && b != [] {
      assert Texts(a)[0] == Texts(b)[0] && Texts(a)[1..] == Texts(b)[1..];
      assert Texts(a)[1..] == Texts(a[1..]) && Texts(b)[1..] == Texts(b[1..]);
      TextsInjective(a[1..], b[1..]);
    }
  }

  /** Different commands never print to the same bytes, nor one to a prefix of another. */
  lemma CommandsDiffer(a: seq<bytes>, b: seq<bytes>, rest: bytes)
    requires EncodeCommand(a) + rest == EncodeCommand(b)
    ensures a == b && rest == []
  {
    CommandRoundTrip(a, rest);
    CommandRoundTrip(b, []);
    assert EncodeCommand(b) + [] == EncodeCommand(b);
    TextsInjective(a, b);
  }
}
