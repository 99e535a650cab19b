// The base 64 encoding of section 4 of RFC 4648, padded, and a decoder that
// accepts exactly what the encoder writes. Text is the sequence of its bytes.
module Base64 {
  import opened Sql

  type Byte = n: nat | n < 256
  type Sextet = n: nat | n < 64

  const PAD: Byte := 61               // '='

  // A-Z, a-z, 0-9, '+', '/'
  function Digit(v: Sextet): Byte {
    if v < 26 then 65 + v
    else if v < 52 then 97 + (v - 26)
    else if v < 62 then 48 + (v - 52)
    else if v == 62 then 43
    else 47
  }

  function DigitValue(c: Byte): Option<Sextet> {
    if 65 <= c <= 90 then Some(c - 65)
    else if 97 <= c <= 122 then Some(c - 97 + 26)
    else if 48 <= c <= 57 then Some(c - 48 + 52)
    else if c == 43 then Some(62)
    else if c == 47 then Some(63)
    else None
  }

  function EncodeQuantum(b: seq<Byte>): (q: seq<Byte>)
    requires 1 <= |b| <= 3
    ensures |q| == 4
  {
    var b1 := if |b| > 1 then b[1] else 0;
    var b2 := if |b| > 2 then b[2] else 0;
    [Digit(b[0] / 4),
     Digit(b[0] % 4 * 16 + b1 / 16),
     if |b| > 1 then Digit(b1 % 16 * 4 + b2 / 64) else PAD,
     if |b| > 2 then Digit(b2 % 64) else PAD]
  }

  function Encode(b: seq<Byte>): (s: seq<Byte>)
    ensures |s| >= |b|
  {
    if b == [] then []
    else if |b| <= 3 then EncodeQuantum(b)
    else EncodeQuantum(b[..3]) + Encode(b[3..])
  }

  // Two, three or four digits, padded to four; left-over bits must be zero.
  function DecodeQuantum(q: seq<Byte>): (b: Option<seq<Byte>>)
    requires |q| == 4
    ensures b.Some? ==> 1 <= |b.value| <= 3
  {
    var v0, v1, v2, v3 := DigitValue(q[0]), DigitValue(q[1]), DigitValue(q[2]), DigitValue(q[3]);
    if v0.None? || v1.None? then None
    else if q[2] == PAD && q[3] == PAD then
      if v1.value % 16 == 0 then Some([v0.value * 4 + v1.value / 16]) else None
    else if v2.None? then None
    else if q[3] == PAD then
      if v2.value % 4 == 0
      then Some([v0.value * 4 + v1.value / 16, v1.value % 16 * 16 + v2.value / 4]) else None
    else if v3.None? then None
    else Some([v0.value * 4 + v1.value / 16, v1.value % 16 * 16 + v2.value / 4, v2.value % 4 * 64 + v3.value])
  }

  // Padding may only end the text.
  function Decode(s: seq<Byte>): Option<seq<Byte>> {
    if s == [] then Some([])
    else if |s| < 4 then None
    else
      var head := DecodeQuantum(s[..4]);
      if head.None? then None
      else if |s| == 4 then head
      else if |head.value| < 3 then None
      else
        var rest := Decode(s[4..]);
        if rest.None? then None else Some(head.value + rest.value)
  }

  lemma DigitRoundTrip(v: Sextet)
    ensures DigitValue(Digit(v)) == Some(v) && Digit(v) != PAD
  {
  }

  lemma ValueRoundTrip(c: Byte)
    ensures DigitValue(c).Some? ==> Digit(DigitValue(c).value) == c && c != PAD
  {
  }

  lemma QuantumRoundTrip(b: seq<Byte>)
    requires 1 <= |b| <= 3
    ensures DecodeQuantum(EncodeQuantum(b)) == Some(b)
  {
    hide Digit, DigitValue;
    var b1 := if |b| > 1 then b[1] else 0;
    var b2 := if |b| > 2 then b[2] else 0;
    DigitRoundTrip(b[0] / 4);
    DigitRoundTrip(b[0] % 4 * 16 + b1 / 16);
    DigitRoundTrip(b1 % 16 * 4 + b2 / 64);
    DigitRoundTrip(b2 % 64);
    SplitsAdd(b[0], b1, b2);
    var back := DecodeQuantum(EncodeQuantum(b));
    assert back.Some? && |back.value| == |b|;
    assert forall i | 0 <= i < |b| :: back.value[i] == b[i];
    assert back.value == b;
  }

  // Cutting three bytes into sextets loses nothing.
  lemma SplitsAdd(b0: Byte, b1: Byte, b2: Byte)
    ensures (b0 % 4 * 16 + b1 / 16) / 16 == b0 % 4 && (b0 % 4 * 16 + b1 / 16) % 16 == b1 / 16
    ensures (b1 % 16 * 4 + b2 / 64) / 4 == b1 % 16 && (b1 % 16 * 4 + b2 / 64) % 4 == b2 / 64
  {
  }

  lemma QuantumIsCanonical(q: seq<Byte>)
    requires |q| == 4 && DecodeQuantum(q).Some?
    ensures EncodeQuantum(DecodeQuantum(q).value) == q
  {
    hide Digit, DigitValue;
    ValueRoundTrip(q[0]);
    ValueRoundTrip(q[1]);
    ValueRoundTrip(q[2]);
    ValueRoundTrip(q[3]);
  }

  lemma {:induction false} DecodeEncode(b: seq<Byte>)
    ensures Decode(Encode(b)) == Some(b)
  {
    hide EncodeQuantum, DecodeQuantum;
    if 0 < |b| <= 3 {
      QuantumRoundTrip(b);
      assert Encode(b)[..4] == EncodeQuantum(b);
    } else if |b| > 3 {
      QuantumRoundTrip(b[..3]);
      assert Encode(b)[..4] == EncodeQuantum(b[..3]) && Encode(b)[4..] == Encode(b[3..]);
      DecodeEncode(b[3..]);
      assert b[..3] + b[3..] == b;
    }
  }

  // No two texts decode to the same bytes: what decodes is what encoding writes.
  lemma {:induction false} EncodeDecode(s: seq<Byte>)
    requires Decode(s).Some?
    ensures Encode(Decode(s).value) == s
  {
    hide EncodeQuantum, DecodeQuantum;
    if s != [] {
      var head := DecodeQuantum(s[..4]).value;
      QuantumIsCanonical(s[..4]);
      if |s| == 4 {
        assert s[..4] == s;
      } else {
        EncodeDecode(s[4..]);
        var rest := Decode(s[4..]).value;
        assert (head + rest)[..3] == head && (head + rest)[3..] == rest;
        assert rest != [] by {
          DecodesToSomething(s[4..]);
        }
        assert s[..4] + s[4..] == s;
      }
    }
  }

  lemma DecodesToSomething(s: seq<Byte>)
    requires s != [] && Decode(s).Some?
    ensures Decode(s).value != []
  {
  }

  lemma {:induction false} EncodedIsAscii(b: seq<Byte>)
    ensures forall c | c in Encode(b) :: c < 128
  {
    if |b| > 3 {
      EncodedIsAscii(b[3..]);
    }
  }

  // ── Against the standard ──────────────────────────────────

  // Table 1 of section 4 of RFC 4648.
  const UPPER: string := "ABCDEFGHIJKLMNOPQRSTUVWXYZ"
  const LOWER: string := "abcdefghijklmnopqrstuvwxyz"
  const ALPHABET: string := UPPER + LOWER + "0123456789+/"

  lemma DigitsAreTheAlphabet(v: Sextet)
    ensures |ALPHABET| == 64 && Digit(v) == ALPHABET[v] as int
  {
  }

  // Four digits write in base 64 the number that three bytes write in base 256; a
  // missing byte stands for zero, and the padding for its digit.
  lemma QuantumIsTheNumber(b: seq<Byte>)
    requires 1 <= |b| <= 3
    ensures var q := EncodeQuantum(b);
            && ValueOf(q[0]) * 262144 + ValueOf(q[1]) * 4096 + ValueOf(q[2]) * 64 + ValueOf(q[3])
              == b[0] * 65536 + ByteAt(b, 1) * 256 + ByteAt(b, 2)
            && q[0] != PAD && q[1] != PAD && (q[2] == PAD <==> |b| < 2) && (q[3] == PAD <==> |b| < 3)
  {
    hide Digit, DigitValue;
    var b1, b2 := ByteAt(b, 1), ByteAt(b, 2);
    DigitRoundTrip(b[0] / 4);
    DigitRoundTrip(b[0] % 4 * 16 + b1 / 16);
    DigitRoundTrip(b1 % 16 * 4 + b2 / 64);
    DigitRoundTrip(b2 % 64);
    PadHasNoValue();
    SameNumber(b[0], b1, b2);
  }

  function ByteAt(b: seq<Byte>, i: nat): Byte {
    if i < |b| then b[i] else 0
  }

  function ValueOf(c: Byte): nat {
    if DigitValue(c).Some? then DigitValue(c).value else 0
  }

  lemma PadHasNoValue()
    ensures ValueOf(PAD) == 0
  {
  }

  lemma SameNumber(b0: Byte, b1: Byte, b2: Byte)
    ensures b0 / 4 * 262144 + (b0 % 4 * 16 + b1 / 16) * 4096 + (b1 % 16 * 4 + b2 / 64) * 64 + b2 % 64
      == b0 * 65536 + b1 * 256 + b2
  {
    assert b0 == b0 / 4 * 4 + b0 % 4;
    assert b1 == b1 / 16 * 16 + b1 % 16;
    assert b2 == b2 / 64 * 64 + b2 % 64;
  }

  // Quanta are written one after the other.
  lemma {:induction false} EncodeAppends(a: seq<Byte>, b: seq<Byte>)
    requires |a| % 3 == 0
    ensures Encode(a + b) == Encode(a) + Encode(b)
  {
    hide EncodeQuantum;
    if a == [] {
      assert a + b == b;
    } else {
      EncodeAppends(a[3..], b);
      assert (a + b)[..3] == a[..3] && (a + b)[3..] == a[3..] + b;
      assert |a| == 3 ==> a[..3] == a && a[3..] == [];
      assert b == [] ==> a + b == a;
    }
  }

  // Section 10 of RFC 4648, and a text with the last two digits in it.
  lemma KnownEncodings()
    ensures Encode([102]) == [90, 103, 61, 61]                              // "f", "Zg=="
    ensures Encode([102, 111]) == [90, 109, 56, 61]                         // "fo", "Zm8="
    ensures Encode([102, 111, 111, 98, 97, 114]) == [90, 109, 57, 118, 89, 109, 70, 121]
    ensures Encode([251, 255, 191]) == [43, 47, 43, 47]                     // "+/+/"
  {
  }
}
