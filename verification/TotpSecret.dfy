// The envelope a second-factor secret is stored in. Authenticated encryption and
// the key digest are parameters; base 64 and the envelope are concrete. Texts are
// the bytes of their UTF-8 form.
module TotpSecret {
  import opened Sql
  import opened Base64

  type Bytes = seq<Byte>

  const NONCE_LEN := 12
  const KEY_LEN := 32

  // "enc:v1:"
  const PREFIX: Bytes := [101, 110, 99, 58, 118, 49, 58]

  // ── UTF-8 ─────────────────────────────────────────────────

  predicate Tail(c: Byte) {
    128 <= c < 192
  }

  // How many bytes the first character takes, zero if there is none (section 4 of
  // RFC 3629).
  function FirstWidth(s: Bytes): (n: nat)
    ensures n <= |s| && n <= 4
  {
    if s == [] then 0
    else if s[0] < 128 then 1
    else if |s| >= 2 && 194 <= s[0] < 224 && Tail(s[1]) then 2
    else if |s| >= 3 && 224 <= s[0] < 240 && Tail(s[1]) && Tail(s[2])
         && (s[0] == 224 ==> s[1] >= 160) && (s[0] == 237 ==> s[1] < 160) then 3
    else if |s| >= 4 && 240 <= s[0] < 245 && Tail(s[1]) && Tail(s[2]) && Tail(s[3])
         && (s[0] == 240 ==> s[1] >= 144) && (s[0] == 244 ==> s[1] < 144) then 4
    else 0
  }

  predicate IsUtf8(s: Bytes)
    decreases |s|
  {
    s == [] || (FirstWidth(s) > 0 && IsUtf8(s[FirstWidth(s)..]))
  }

  type Text = s: Bytes | IsUtf8(s) witness []

  lemma {:induction false} AsciiIsUtf8(s: Bytes)
    requires forall c | c in s :: c < 128
    ensures IsUtf8(s)
    decreases |s|
  {
    if s != [] {
      assert s[0] in s && forall c | c in s[1..] :: c in s;
      AsciiIsUtf8(s[1..]);
    }
  }

  // Unicode scalar values, and the bytes section 3 of RFC 3629 writes each with.
  type Scalar = c: nat | c < 0xD800 || 0xE000 <= c < 0x110000

  function Utf8(c: Scalar): (b: Bytes)
    ensures 1 <= |b| <= 4
  {
    if c < 0x80 then [c]
    else if c < 0x800 then [192 + c / 64, 128 + c % 64]
    else if c < 0x10000 then [224 + c / 4096, 128 + c / 64 % 64, 128 + c % 64]
    else [240 + c / 262144, 128 + c / 4096 % 64, 128 + c / 64 % 64, 128 + c % 64]
  }

  function Utf8Text(text: seq<Scalar>): Bytes {
    if text == [] then [] else Utf8(text[0]) + Utf8Text(text[1..])
  }

  lemma FirstIsWhole(c: Scalar, rest: Bytes)
    ensures FirstWidth(Utf8(c) + rest) == |Utf8(c)|
  {
  }

  // The bits a byte carries below its marker.
  function Bits(c: Byte, marker: nat): (n: nat)
    requires marker <= c
    ensures n == c - marker
  {
    c - marker
  }

  // The scalar value of the first character.
  function FirstScalar(s: Bytes): (c: Scalar)
    requires FirstWidth(s) > 0
  {
    if s[0] < 128 then s[0]
    else if s[0] < 224 then Bits(s[0], 192) * 64 + Bits(s[1], 128)
    else if s[0] < 240 then Bits(s[0], 224) * 4096 + Bits(s[1], 128) * 64 + Bits(s[2], 128)
    else Bits(s[0], 240) * 262144 + Bits(s[1], 128) * 4096 + Bits(s[2], 128) * 64 + Bits(s[3], 128)
  }

  lemma SplitTwo(a: nat, b: nat)
    requires b < 64
    ensures (a * 64 + b) / 64 == a && (a * 64 + b) % 64 == b
  {
  }

  lemma SplitThree(a: nat, b: nat, c: nat)
    requires b < 64 && c < 64
    ensures var n := a * 4096 + b * 64 + c; n / 4096 == a && n / 64 % 64 == b && n % 64 == c
  {
    var n := a * 4096 + b * 64 + c;
    SplitTwo(a * 64 + b, c);
    SplitTwo(a, b);
    assert n / 4096 == a;
  }

  lemma SplitFour(a: nat, b: nat, c: nat, d: nat)
    requires b < 64 && c < 64 && d < 64
    ensures var n := a * 262144 + b * 4096 + c * 64 + d;
            n / 262144 == a && n / 4096 % 64 == b && n / 64 % 64 == c && n % 64 == d
  {
    var n := a * 262144 + b * 4096 + c * 64 + d;
    SplitThree(a * 64 + b, c, d);
    SplitTwo(a, b);
    assert n / 262144 == a;
  }

  lemma FirstIsWritten(s: Bytes)
    requires FirstWidth(s) > 0
    ensures Utf8(FirstScalar(s)) == s[..FirstWidth(s)]
  {
    if 128 <= s[0] < 224 {
      SplitTwo(s[0] - 192, s[1] - 128);
    } else if 224 <= s[0] < 240 {
      SplitThree(s[0] - 224, s[1] - 128, s[2] - 128);
    } else if s[0] >= 240 {
      SplitFour(s[0] - 240, s[1] - 128, s[2] - 128, s[3] - 128);
    }
  }

  lemma WrittenText(c: Scalar, text: seq<Scalar>)
    ensures Utf8Text([c] + text) == Utf8(c) + Utf8Text(text)
  {
    assert ([c] + text)[1..] == text;
  }

  lemma {:induction false} WrittenIsUtf8(text: seq<Scalar>)
    ensures IsUtf8(Utf8Text(text))
  {
    hide FirstWidth, Utf8;
    if text != [] {
      var s, rest := Utf8Text(text), Utf8Text(text[1..]);
      FirstIsWhole(text[0], rest);
      assert s == Utf8(text[0]) + rest && s[FirstWidth(s)..] == rest;
      WrittenIsUtf8(text[1..]);
    }
  }

  // The bytes accepted as a text are exactly those that write some scalar values.
  lemma {:induction false} Utf8Exactly(s: Bytes)
    ensures IsUtf8(s) <==> exists text: seq<Scalar> :: Utf8Text(text) == s
    decreases |s|
  {
    hide FirstWidth, Utf8;
    if text: seq<Scalar> :| Utf8Text(text) == s {
      WrittenIsUtf8(text);
    }
    if s == [] {
      assert Utf8Text([]) == s;
    } else if IsUtf8(s) {
      var n := FirstWidth(s);
      Utf8Exactly(s[n..]);
      var text: seq<Scalar> :| Utf8Text(text) == s[n..];
      FirstIsWritten(s);
      WrittenText(FirstScalar(s), text);
      assert s == s[..n] + s[n..];
    }
  }

  // ── The envelope ──────────────────────────────────────────

  datatype Error = NoKey | NotSealed | NotBase64 | TooShort | NotOpened | NotUtf8

  datatype Result = Ok(text: Text) | Err(error: Error)

  // key, nonce, and plain or sealed bytes
  datatype Aead = Aead(
    seal: (Bytes, Bytes, Bytes) -> Option<Bytes>,
    open: (Bytes, Bytes, Bytes) -> Option<Bytes>)

  ghost predicate Sound(a: Aead) {
    forall k, n, p :: a.seal(k, n, p).Some? ==>
      |a.seal(k, n, p).value| >= |p| && a.open(k, n, a.seal(k, n, p).value) == Some(p)
  }

  // Only what sealing writes opens.
  ghost predicate Authentic(a: Aead) {
    forall k, n, c :: a.open(k, n, c).Some? ==> a.seal(k, n, a.open(k, n, c).value) == Some(c)
  }

  // What was sealed under a key opens under no other.
  ghost predicate KeysSeparate(a: Aead) {
    forall k, k', n, p :: a.seal(k, n, p).Some? && a.open(k', n, a.seal(k, n, p).value).Some? ==> k == k'
  }

  function DeriveKey(sha: Bytes -> Bytes, key: Text): Bytes {
    var decoded := Decode(key);
    if decoded.Some? && |decoded.value| == KEY_LEN then decoded.value else sha(key)
  }

  // No key: values are stored as they are.
  function Cipher(sha: Bytes -> Bytes, key: Text): Option<Bytes> {
    if key == [] then None else Some(DeriveKey(sha, key))
  }

  function Envelope(nonce: Bytes, sealed: Bytes): (t: Text)
  {
    EncodedIsAscii(nonce + sealed);
    var t := PREFIX + Encode(nonce + sealed);
    AsciiIsUtf8(t);
    t
  }

  function Encrypt(a: Aead, cipher: Option<Bytes>, nonce: Bytes, plain: Text): Result {
    if cipher.None? then Ok(plain)
    else
      var sealed := a.seal(cipher.value, nonce, plain);
      if sealed.None? then Err(NotSealed) else Ok(Envelope(nonce, sealed.value))
  }

  function Decrypt(a: Aead, cipher: Option<Bytes>, stored: Text): Result {
    if !(PREFIX <= stored) then Ok(stored)
    else if cipher.None? then Err(NoKey)
    else
      var raw := Decode(stored[|PREFIX|..]);
      if raw.None? then Err(NotBase64)
      else if |raw.value| < NONCE_LEN then Err(TooShort)
      else
        var plain := a.open(cipher.value, raw.value[..NONCE_LEN], raw.value[NONCE_LEN..]);
        if plain.None? then Err(NotOpened)
        else if !IsUtf8(plain.value) then Err(NotUtf8)
        else Ok(plain.value)
  }

  // ── Properties ────────────────────────────────────────────

  lemma EnvelopeOpens(nonce: Bytes, sealed: Bytes)
    requires |nonce| == NONCE_LEN
    ensures var e := Envelope(nonce, sealed);
            && PREFIX <= e && |e| > |sealed| && Decode(e[|PREFIX|..]) == Some(nonce + sealed)
            && (nonce + sealed)[..NONCE_LEN] == nonce && (nonce + sealed)[NONCE_LEN..] == sealed
  {
    DecodeEncode(nonce + sealed);
    assert Envelope(nonce, sealed)[|PREFIX|..] == Encode(nonce + sealed);
  }

  // What is stored: seven characters of tag, then in base 64 the twelve bytes of
  // nonce and what sealing wrote.
  lemma EnvelopeLayout(a: Aead, key: Bytes, nonce: Bytes, plain: Text)
    requires |nonce| == 12 && Encrypt(a, Some(key), nonce, plain).Ok?
    ensures var stored := Encrypt(a, Some(key), nonce, plain).text;
            && |stored| > 7 && (forall i | 0 <= i < 7 :: stored[i] == "enc:v1:"[i] as int)
            && Decode(stored[7..]).Some?
            && var raw := Decode(stored[7..]).value;
               |raw| >= 12 && raw[..12] == nonce && a.seal(key, nonce, plain) == Some(raw[12..])
  {
    EnvelopeOpens(nonce, a.seal(key, nonce, plain).value);
  }

  // Without a key text secrets are stored as they are; any other text, however short,
  // makes a key.
  lemma NoTextNoKey(a: Aead, sha: Bytes -> Bytes, key: Text, nonce: Bytes, plain: Text)
    ensures Cipher(sha, key).Some? <==> |key| > 0
    ensures key == [] ==> Encrypt(a, Cipher(sha, key), nonce, plain) == Ok(plain)
  {
  }

  // What was encrypted under a key decrypts to itself under that key, and to an
  // error without the key or under any other.
  lemma RoundTrip(a: Aead, key: Bytes, nonce: Bytes, plain: Text, other: Option<Bytes>)
    requires Sound(a) && KeysSeparate(a) && |nonce| == NONCE_LEN && Encrypt(a, Some(key), nonce, plain).Ok?
    ensures var stored := Encrypt(a, Some(key), nonce, plain).text;
            && Decrypt(a, Some(key), stored) == Ok(plain)
            && (other != Some(key) ==> Decrypt(a, other, stored).Err?)
  {
    var sealed := a.seal(key, nonce, plain).value;
    EnvelopeOpens(nonce, sealed);
    assert a.open(key, nonce, sealed) == Some(plain);
  }

  // A tagged value that opens is exactly what encrypting its content would have
  // written: nobody else's text is ever read as a secret.
  lemma OnlyEnvelopesOpen(a: Aead, key: Bytes, stored: Text)
    requires Authentic(a) && PREFIX <= stored && Decrypt(a, Some(key), stored).Ok?
    ensures var plain := Decrypt(a, Some(key), stored).text;
            exists nonce :: |nonce| == NONCE_LEN && Encrypt(a, Some(key), nonce, plain) == Ok(stored)
  {
    var raw := Decode(stored[|PREFIX|..]).value;
    var nonce, sealed := raw[..NONCE_LEN], raw[NONCE_LEN..];
    var plain := Decrypt(a, Some(key), stored).text;
    EncodeDecode(stored[|PREFIX|..]);
    assert nonce + sealed == raw && PREFIX + stored[|PREFIX|..] == stored;
    assert a.seal(key, nonce, plain) == Some(sealed);
    assert Encrypt(a, Some(key), nonce, plain) == Ok(stored);
  }

  // A value stored without a key is read back, under any configuration, exactly
  // when it does not carry the tag.
  lemma PlainReadsBackExactly(a: Aead, cipher: Option<Bytes>, nonce: Bytes, plain: Text)
    requires Sound(a) && Authentic(a)
    ensures Encrypt(a, None, nonce, plain) == Ok(plain)
    ensures Decrypt(a, cipher, plain) == Ok(plain) <==> !(PREFIX <= plain)
  {
    if PREFIX <= plain && Decrypt(a, cipher, plain).Ok? {
      OnlyEnvelopesOpen(a, cipher.value, plain);
      var content := Decrypt(a, cipher, plain).text;
      var n :| |n| == NONCE_LEN && Encrypt(a, cipher, n, content) == Ok(plain);
      EnvelopeOpens(n, a.seal(cipher.value, n, content).value);
      assert |plain| > |content|;
    }
  }

  // Section 6 of RFC 4648: A-Z, 2-7 and padding.
  predicate Base32Digit(c: Byte) {
    65 <= c <= 90 || 50 <= c <= 55 || c == PAD
  }

  predicate IsBase32(s: Bytes) {
    forall c | c in s :: Base32Digit(c)
  }

  lemma Base32Alphabet(c: Byte)
    ensures Base32Digit(c) <==> c as char in "ABCDEFGHIJKLMNOPQRSTUVWXYZ234567="
  {
  }

  lemma SecretsAreNeverTagged(secret: Bytes)
    requires IsBase32(secret)
    ensures IsUtf8(secret) && !(PREFIX <= secret)
  {
    AsciiIsUtf8(secret);
    assert secret == [] || secret[0] in secret;
  }

  // Every base 32 secret comes back, whether or not a key was set when it was
  // stored, as long as a key it was stored under is still the one set.
  lemma SecretsComeBack(a: Aead, written: Option<Bytes>, read: Option<Bytes>, nonce: Bytes, secret: Bytes)
    requires Sound(a) && Authentic(a) && KeysSeparate(a) && IsBase32(secret) && |nonce| == NONCE_LEN
    ensures IsUtf8(secret)
    ensures var stored := Encrypt(a, written, nonce, secret);
            stored.Ok? ==> (Decrypt(a, read, stored.text) == Ok(secret) <==> written.None? || read == written)
    ensures var stored := Encrypt(a, written, nonce, secret);
            stored.Ok? && Decrypt(a, read, stored.text).Ok? ==> Decrypt(a, read, stored.text) == Ok(secret)
  {
    SecretsAreNeverTagged(secret);
    if written.None? {
      PlainReadsBackExactly(a, read, nonce, secret);
    } else if Encrypt(a, written, nonce, secret).Ok? {
      RoundTrip(a, written.value, nonce, secret, read);
    }
  }

  // A key given in base 64 is used as it is; every other text is digested, so the
  // key is always 32 bytes.
  lemma EncodedKeyIsTheKey(sha: Bytes -> Bytes, raw: Bytes)
    requires |raw| == KEY_LEN
    ensures IsUtf8(Encode(raw)) && Cipher(sha, Encode(raw)) == Some(raw)
  {
    EncodedIsAscii(raw);
    AsciiIsUtf8(Encode(raw));
    DecodeEncode(raw);
  }

  lemma DerivedKeyExactly(sha: Bytes -> Bytes, key: Text)
    requires forall t :: |sha(t)| == KEY_LEN
    ensures |DeriveKey(sha, key)| == KEY_LEN
    ensures (exists raw :: |raw| == KEY_LEN && key == Encode(raw)) ==> key == Encode(DeriveKey(sha, key))
    ensures !(exists raw :: |raw| == KEY_LEN && key == Encode(raw)) ==> DeriveKey(sha, key) == sha(key)
  {
    if Decode(key).Some? {
      EncodeDecode(key);
    }
    forall raw | |raw| == KEY_LEN && key == Encode(raw)
      ensures Decode(key) == Some(raw)
    {
      DecodeEncode(raw);
    }
  }
}
