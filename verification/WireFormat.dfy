/**
 RESP2 byte by byte, as the Redis serialization protocol specification writes it: what the parser makes
 of each type of reply, and what the printer writes. 13 10 ends a line; 36, 42, 43, 45 and 58 are the
 type bytes of bulk strings, arrays, simple strings, simple errors and integers.
 */
module WireFormat {
  import opened Options
  import opened Doubles
  import opened Resp

  // ---------------------------------------------------------------- decimals

  function PowerOfTen(n: nat): nat { if n == 0 then 1 else 10 * PowerOfTen(n - 1) }

  /** The number a string of decimal digits stands for, most significant digit first. */
  function PlaceValue(s: bytes): int {
    if s == [] then 0 else (s[0] as int - 48) * PowerOfTen(|s| - 1) + PlaceValue(s[1..])
  }

  lemma {:induction false} PlaceValueAppend(s: bytes, d: byte)
    ensures PlaceValue(s + [d]) == 10 * PlaceValue(s) + (d as int - 48)
    decreases |s|
  {
    if s != [] {
      assert (s + [d])[1..] == s[1..] + [d];
      PlaceValueAppend(s[1..], d);
      var k, p := s[0] as int - 48, PowerOfTen(|s| - 1);
      assert k * (10 * p) == 10 * (k * p);
    }
  }

  lemma {:induction false} DigitsValueIsPlaceValue(s: bytes)
    requires AllDigits(s)
    ensures DigitsValue(s) == PlaceValue(s)
    decreases |s|
  {
    if s != [] {
      var init := s[..|s| - 1];
      DigitsValueIsPlaceValue(init);
      PlaceValueAppend(init, s[|s| - 1]);
      assert init + [s[|s| - 1]] == s;
    }
  }

  /** Numbers are printed with decimal digits, most significant first, without leading zeros. */
  lemma {:induction false} DigitsAreDecimal(n: nat)
    ensures Digits(n) != [] && PlaceValue(Digits(n)) == n
    ensures forall i :: 0 <= i < |Digits(n)| ==> 48 <= Digits(n)[i] <= 57
    ensures Digits(n)[0] == 48 ==> n == 0
    decreases n
  {
    if n < 10 {
      assert Digits(n)[1..] == [];
    } else {
      DigitsAreDecimal(n / 10);
      PlaceValueAppend(Digits(n / 10), 48 + n % 10);
      assert Digits(n)[0] == Digits(n / 10)[0];
    }
  }

  lemma DigitBytes(s: bytes)
    requires forall i :: 0 <= i < |s| ==> 48 <= s[i] <= 57
    ensures AllDigits(s)
  {
  }

  lemma NumberOf(line: bytes, s: bytes)
    requires s != [] && AllDigits(s)
    ensures line == s ==> Number(line) == Some(DigitsValue(s))
    ensures |line| > 1 && line[1..] == s && line[0] == 45 ==> Number(line) == Some(0 - DigitsValue(s))
    ensures |line| > 1 && line[1..] == s && line[0] == 43 ==> Number(line) == Some(DigitsValue(s))
  {
    hide DigitsValue;
  }

  lemma SignedIs(sign: byte, s: bytes)
    requires sign == 43 || sign == 45
    ensures ([sign] + s)[0] == sign && ([sign] + s)[1..] == s && !AllDigits([sign] + s)
  {
    assert ([sign] + s)[0] == sign;
  }

  /** Number reads decimal digits, with or without a sign. */
  lemma NumberReads(s: bytes)
    requires s != [] && forall i :: 0 <= i < |s| ==> 48 <= s[i] <= 57
    ensures Number(s) == Some(PlaceValue(s))
    ensures Number([45] + s) == Some(0 - PlaceValue(s))
    ensures Number([43] + s) == Some(PlaceValue(s))
  {
    hide DigitsValue, PlaceValue, Number, AllDigits;
    assert AllDigits(s) by { DigitBytes(s); }
    DigitsValueIsPlaceValue(s);
    SignedIs(45, s);
    SignedIs(43, s);
    NumberOf(s, s);
    NumberOf([45] + s, s);
    NumberOf([43] + s, s);
  }

  // ---------------------------------------------------------------- replies

  ghost predicate NoLineEnd(text: bytes) {
    forall i :: 0 <= i < |text| - 1 ==> !(text[i] == 13 && text[i + 1] == 10)
  }

  lemma OnTheWire(r: Reply, printed: bytes, rest: bytes)
    requires WellFormed(r) && printed == Encode(r)
    ensures Parse(printed + rest, 0) == Outcome(r, |printed|)
  {
    hide Parse, Encode;
    RoundTrip([], r, rest);
    assert [] + Encode(r) + rest == printed + rest;
  }

  /** A bulk string: its length, a line end, its bytes, whatever they are, and a line end. */
  lemma BulkOnTheWire(d: bytes, rest: bytes)
    ensures Parse([36] + Digits(|d|) + [13, 10] + d + [13, 10] + rest, 0) == Done(Text(d), |Digits(|d|)| + |d| + 5)
  {
    hide Parse, Digits;
    OnTheWire(Bulk(d), [36] + Digits(|d|) + [13, 10] + d + [13, 10], rest);
  }

  /** Simple strings and errors: the text up to the line end. */
  lemma LinesOnTheWire(text: bytes, rest: bytes)
    requires NoLineEnd(text)
    ensures Parse([43] + text + [13, 10] + rest, 0) == Done(Text(text), |text| + 3)
    ensures Parse([45] + text + [13, 10] + rest, 0) == Rejected(FromServer(text), |text| + 3)
  {
    hide Parse;
    OnTheWire(Simple(text), [43] + text + [13, 10], rest);
    OnTheWire(Failure(text), [45] + text + [13, 10], rest);
  }

  /** Integers of 64 bits, signed: the caller gets the nearest double. */
  lemma IntegersOnTheWire(n: nat, rest: bytes)
    ensures n <= 9223372036854775807 ==>
              Parse([58] + Digits(n) + [13, 10] + rest, 0) == Done(Num(ToDouble(n)), |Digits(n)| + 3)
    ensures 0 < n <= 9223372036854775808 ==>
              Parse([58, 45] + Digits(n) + [13, 10] + rest, 0) == Done(Num(ToDouble(-(n as int))), |Digits(n)| + 4)
  {
    hide Parse, Digits, ToDouble;
    if n <= 9223372036854775807 {
      OnTheWire(Integer(n), [58] + Digits(n) + [13, 10], rest);
    }
    if 0 < n <= 9223372036854775808 {
      var printed: bytes := [58, 45] + Digits(n) + [13, 10];
      assert printed == [58] + ([45] + Digits(n)) + [13, 10];
      OnTheWire(Integer(-(n as int)), printed, rest);
    }
  }

  /** The null of both kinds. */
  lemma NullsOnTheWire(rest: bytes)
    ensures Parse([36, 45, 49, 13, 10] + rest, 0) == Done(Null, 5)
    ensures Parse([42, 45, 49, 13, 10] + rest, 0) == Done(Null, 5)
  {
    hide Parse;
    assert Decimal(-1) == [45, 49];
    OnTheWire(NullBulk, [36, 45, 49, 13, 10], rest);
    OnTheWire(NullArray, [42, 45, 49, 13, 10], rest);
  }

  /** An array: the number of its items, a line end, and the items one after the other. */
  lemma ArraysOnTheWire(items: seq<Reply>, rest: bytes)
    requires forall i :: 0 <= i < |items| ==> WellFormed(items[i])
    ensures Parse([42] + Digits(|items|) + [13, 10] + EncodeAll(items) + rest, 0) ==
            Done(List(Values(items)), |Digits(|items|)| + 3 + |EncodeAll(items)|)
  {
    hide Parse, Digits, EncodeAll;
    OnTheWire(Array(items), [42] + Digits(|items|) + [13, 10] + EncodeAll(items), rest);
  }

  /** Any other type byte is refused, after its line. */
  lemma OtherTypesOnTheWire(kind: byte, text: bytes, rest: bytes)
    requires kind !in {13, 36, 42, 43, 45, 58} && NoLineEnd(text)
    ensures Parse([kind] + text + [13, 10] + rest, 0) == Rejected(UnsupportedType(kind), |text| + 3)
  {
    HeaderFound([], kind, text, rest);
    assert [] + Line(kind, text) + rest == [kind] + text + [13, 10] + rest;
  }

  // ---------------------------------------------------------------- commands

  /** Arguments as bulk strings, one after the other. */
  function BulkStrings(args: seq<bytes>): bytes {
    if args == [] then []
    else [36] + Digits(|args[0]|) + [13, 10] + args[0] + [13, 10] + BulkStrings(args[1..])
  }

  /** A command is printed as an array of bulk strings. */
  lemma {:induction false} CommandOnTheWire(args: seq<bytes>)
    ensures EncodeArgs(args) == BulkStrings(args)
    ensures EncodeCommand(args) == [42] + Digits(|args|) + [13, 10] + BulkStrings(args)
    decreases |args|
  {
    hide Digits;
    if args != [] {
      CommandOnTheWire(args[1..]);
    }
  }

  /** PING: 1 argument of 4 bytes. */
  lemma PingOnTheWire()
    ensures EncodeCommand([[80, 73, 78, 71]]) == [42, 49, 13, 10, 36, 52, 13, 10, 80, 73, 78, 71, 13, 10]
  {
    var ping: bytes := [80, 73, 78, 71];
    CommandOnTheWire([ping]);
    assert [ping][1..] == [] && Digits(1) == [49] && Digits(4) == [52];
  }
}
