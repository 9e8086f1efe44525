/** The wire form of a detached signature.

    The validator node renders the signature bytes as a JSON array of decimal
    numbers, with no whitespace (src/validator/index.ts:142). The hub turns that
    text back into bytes by parsing it as JSON and converting the array to a
    Uint8Array (src/hub/index.ts:109). JSON numbers are read as doubles, and
    the conversion reduces each element modulo 256; for elements below 2^53
    the double is exact, and the decoder here reduces the exact integer for
    every element. Text that does not parse makes the hub's verifier return
    false, so the decoder here answers None for it. */
module SignatureWire {
  import opened Wrappers

  type byte = x: int | 0 <= x < 256

  predicate IsDigit(c: char) {
    '0' <= c <= '9'
  }

  /** JSON's insignificant whitespace: space, tab, line feed, carriage return. */
  predicate IsWhitespace(c: char) {
    c == ' ' || c == '\t' || c == '\n' || c == '\r'
  }

  predicate AllDigits(s: string) {
    forall i :: 0 <= i < |s| ==> IsDigit(s[i])
  }

  function DigitValue(c: char): (d: nat)
    requires IsDigit(c)
    ensures d < 10
  {
    (c as int) - ('0' as int)
  }

  function DigitChar(d: nat): (c: char)
    requires d < 10
    ensures IsDigit(c) && DigitValue(c) == d
  {
    (('0' as int) + d) as char
  }

  /** The decimal text of a number: digits only, and no leading zero except
      for the number zero itself. For a byte, and for any number below 10^21,
      this is what Number.prototype.toString writes. */
  function Decimal(n: nat): (s: string)
    ensures |s| > 0 && AllDigits(s)
    ensures |s| > 1 ==> s[0] != '0'
    ensures n < 10 <==> |s| == 1
  {
    if n < 10 then [DigitChar(n)] else Decimal(n / 10) + [DigitChar(n % 10)]
  }

  /** The number a run of decimal digits denotes. */
  function DigitsValue(s: string): nat
    requires AllDigits(s)
  {
    if s == [] then 0 else 10 * DigitsValue(s[..|s| - 1]) + DigitValue(s[|s| - 1])
  }

  /** The conversion a Uint8Array applies to each array element. */
  function ToUint8(n: nat): byte {
    n % 256
  }

  /** The elements of the array, comma-separated, as JSON.stringify writes them. */
  function JoinDecimals(bs: seq<byte>): (s: string)
    ensures bs != [] ==> |s| > 0 && IsDigit(s[0])
  {
    if |bs| == 0 then ""
    else if |bs| == 1 then Decimal(bs[0])
    else Decimal(bs[0]) + "," + JoinDecimals(bs[1..])
  }

  /** Signature bytes in their wire form: `[b0,b1,...]`. */
  function EncodeSignature(bs: seq<byte>): (s: string)
    ensures |s| >= 2 && s[0] == '[' && s[|s| - 1] == ']'
  {
    "[" + JoinDecimals(bs) + "]"
  }

  /** Drops leading JSON whitespace. */
  function SkipWhitespace(s: string): (r: string)
    ensures |r| <= |s|
    ensures r != [] ==> !IsWhitespace(r[0])
    ensures (s == [] || !IsWhitespace(s[0])) ==> r == s
  {
    if s != [] && IsWhitespace(s[0]) then SkipWhitespace(s[1..]) else s
  }

  /** The length of the longest prefix of `s` made of digits. */
  function DigitRun(s: string): (k: nat)
    ensures k <= |s| && AllDigits(s[..k])
    ensures k < |s| ==> !IsDigit(s[k])
  {
    if s != [] && IsDigit(s[0]) then
      var k := 1 + DigitRun(s[1..]);
      assert s[..k] == [s[0]] + s[1..][..k - 1];
      k
    else 0
  }

  /** Reads one JSON integer without sign, fraction or exponent (`0`, or a
      digit run that does not start with `0`) at the start of `s`, and returns
      its Uint8Array value with the text after it, less leading whitespace. */
  function ParseNumber(s: string): (r: Option<(byte, string)>)
    ensures r.Some? ==> |r.value.1| < |s|
  {
    var k := DigitRun(s);
    if k == 0 || (k > 1 && s[0] == '0') then None
    else Some((ToUint8(DigitsValue(s[..k])), SkipWhitespace(s[k..])))
  }

  /** Parses `n1 , n2 , ... ]` (the part of an array after its opening bracket
      and after any whitespace), followed by nothing but whitespace. */
  function ParseElements(s: string): (r: Option<seq<byte>>)
    ensures r.Some? ==> |r.value| > 0
    decreases |s|
  {
    match ParseNumber(s)
    case None => None
    case Some((b, rest)) =>
      if rest == [] then None
      else if rest[0] == ']' then
        if SkipWhitespace(rest[1..]) == [] then Some([b]) else None
      else if rest[0] == ',' then
        match ParseElements(SkipWhitespace(rest[1..]))
        case None => None
        case Some(tail) => Some([b] + tail)
      else None
  }

  /** The hub's reading of a signature text: None where JSON.parse would throw
      or the value is not an array of numbers. */
  function DecodeSignature(s: string): (r: Option<seq<byte>>)
    ensures r.Some? ==> SkipWhitespace(s) != [] && SkipWhitespace(s)[0] == '['
  {
    var t := SkipWhitespace(s);
    if t == [] || t[0] != '[' then None
    else
      var u := SkipWhitespace(t[1..]);
      if u != [] && u[0] == ']' then
        if SkipWhitespace(u[1..]) == [] then Some([]) else None
      else ParseElements(u)
  }

  lemma {:induction false} DecimalRoundTrip(n: nat)
    ensures DigitsValue(Decimal(n)) == n
  {
    if n >= 10 {
      var s := Decimal(n);
      assert s[..|s| - 1] == Decimal(n / 10);
      DecimalRoundTrip(n / 10);
    }
  }

  lemma {:induction false} DigitRunOfDecimal(d: string, t: string)
    requires AllDigits(d)
    requires t == [] || !IsDigit(t[0])
    ensures DigitRun(d + t) == |d|
    decreases |d|
  {
    if d != [] {
      assert (d + t)[1..] == d[1..] + t;
      DigitRunOfDecimal(d[1..], t);
    }
  }

  lemma ByteIsItsOwnUint8(n: byte)
    ensures ToUint8(n) == n
  {
  }

  /** The decimal text of a byte, followed by a delimiter, reads back as that byte. */
  lemma ParseDecimal(n: byte, tail: string)
    requires tail != [] && !IsDigit(tail[0]) && !IsWhitespace(tail[0])
    ensures ParseNumber(Decimal(n) + tail) == Some((n, tail))
  {
    var d := Decimal(n);
    var s := d + tail;
    DigitRunOfDecimal(d, tail);
    var k := DigitRun(s);
    assert s[..k] == d;
    DecimalRoundTrip(n);
    assert DigitsValue(s[..k]) == n;
    ByteIsItsOwnUint8(n);
    assert s[k..] == tail;
    assert SkipWhitespace(s[k..]) == tail;
    assert k != 0 && !(k > 1 && s[0] == '0');
  }

  /** A number followed by a closing bracket is parsed as that number alone. */
  lemma ParseLast(n: byte, s: string)
    requires s == Decimal(n) + "]"
    ensures ParseElements(s) == Some([n])
  {
    ParseDecimal(n, "]");
    assert "]"[1..] == [];
  }

  /** A number followed by a comma is parsed as that number, and parsing
      continues after the comma. */
  lemma ParseNext(n: byte, more: string, s: string)
    requires s == Decimal(n) + "," + more
    requires more != [] && !IsWhitespace(more[0])
    ensures ParseElements(more).Some? ==> ParseElements(s) == Some([n] + ParseElements(more).value)
  {
    assert s == Decimal(n) + ("," + more);
    ParseDecimal(n, "," + more);
    assert ("," + more)[1..] == more;
  }

  /** The joined form of two or more numbers is the first number, a comma,
      and the joined form of the rest, which starts with a digit. */
  lemma JoinCons(bs: seq<byte>)
    requires |bs| >= 2
    ensures JoinDecimals(bs) + "]" == Decimal(bs[0]) + "," + (JoinDecimals(bs[1..]) + "]")
    ensures IsDigit((JoinDecimals(bs[1..]) + "]")[0])
  {
    var tail := JoinDecimals(bs[1..]);
    assert JoinDecimals(bs) == Decimal(bs[0]) + "," + tail;
    assert (tail + "]")[0] == tail[0];
  }

  lemma {:induction false} ParseJoined(bs: seq<byte>)
    requires bs != []
    ensures ParseElements(JoinDecimals(bs) + "]") == Some(bs)
    decreases |bs|
  {
    if |bs| == 1 {
      ParseLast(bs[0], JoinDecimals(bs) + "]");
      assert [bs[0]] == bs;
    } else {
      JoinCons(bs);
      ParseJoined(bs[1..]);
      ParseNext(bs[0], JoinDecimals(bs[1..]) + "]", JoinDecimals(bs) + "]");
      assert [bs[0]] + bs[1..] == bs;
    }
  }

  /** Decoding what the validator encodes gives back the signature bytes. */
  lemma {:induction false} SignatureRoundTrip(bs: seq<byte>)
    ensures DecodeSignature(EncodeSignature(bs)) == Some(bs)
  {
    var s := EncodeSignature(bs);
    var j := JoinDecimals(bs);
    assert SkipWhitespace(s) == s && s[0] == '[' && s[1..] == j + "]" by {
      assert s == "[" + j + "]";
    }
    if bs == [] {
      assert SkipWhitespace(s[1..]) == "]" by {
        assert j + "]" == "]";
      }
      assert "]"[1..] == [];
    } else {
      assert SkipWhitespace(s[1..]) == j + "]" && (j + "]")[0] != ']' by {
        assert (j + "]")[0] == j[0];
      }
      assert ParseElements(j + "]") == Some(bs) by {
        ParseJoined(bs);
      }
    }
  }

  /** Two byte sequences with the same wire form are equal. */
  lemma EncodeSignatureInjective(a: seq<byte>, b: seq<byte>)
    requires EncodeSignature(a) == EncodeSignature(b)
    ensures a == b
  {
    SignatureRoundTrip(a);
    SignatureRoundTrip(b);
  }
}
