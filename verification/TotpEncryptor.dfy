// The encryptor as a service object: a key derived once into a buffer, and values
// sealed into and opened from byte buffers.
module TotpEncryptor {
  import opened Sql
  import opened Base64
  import opened TotpSecret

  // random supplies the bytes the generator fills the nonce with.
  class Encryptor {
    const aead: Aead
    const cipher: Option<Bytes>

    constructor (aead: Aead, sha: Bytes -> Bytes, key: Text)
      requires forall t :: |sha(t)| == KEY_LEN
      ensures this.aead == aead && this.cipher == Cipher(sha, key)
    {
      this.aead := aead;
      if key == [] {
        cipher := None;
      } else {
        var raw := KeyBuffer(sha, key);
        cipher := Some(raw[..]);
      }
    }

    static method KeyBuffer(sha: Bytes -> Bytes, key: Text) returns (k: array<Byte>)
      requires forall t :: |sha(t)| == KEY_LEN
      ensures fresh(k) && k[..] == DeriveKey(sha, key)
    {
      k := new Byte[KEY_LEN](_ => 0);
      var decoded := Decode(key);
      if decoded.Some? && |decoded.value| == KEY_LEN {
        Copy(k, decoded.value);
      } else {
        Copy(k, sha(key));
      }
    }

    static method Copy(buffer: array<Byte>, source: Bytes)
      requires |source| == buffer.Length
      modifies buffer
      ensures buffer[..] == source
    {
      for i := 0 to buffer.Length
        invariant buffer[..i] == source[..i]
      {
        buffer[i] := source[i];
      }
    }

    method Encrypt(plain: Text, random: Bytes) returns (r: Result)
      requires |random| == NONCE_LEN
      ensures r == TotpSecret.Encrypt(aead, cipher, random, plain)
    {
      if cipher.None? {
        return Ok(plain);
      }
      var nonce := new Byte[NONCE_LEN](_ => 0);
      Copy(nonce, random);
      var sealed := aead.seal(cipher.value, nonce[..], plain);
      if sealed.None? {
        return Err(NotSealed);
      }
      var out := nonce[..];
      out := out + sealed.value;
      EncodedIsAscii(out);
      AsciiIsUtf8(PREFIX + Base64.Encode(out));
      return Ok(PREFIX + Base64.Encode(out));
    }
  }
}
