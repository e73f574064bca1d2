/**
 * The optional encryption layer: key normalisation, the `v1:` envelope
 * `"v1:" + base64(nonce || secretbox(payload))`, and decryption that tries the
 * primary key and then each previous key in order. The primitives (secretbox
 * seal/open, strict base64) are parameters; `WellBehaved` states the laws the
 * proofs rely on, and `WellBehavedIsSatisfiable` shows those laws are consistent.
 */
module Envelope {
  import opened Php
  import opened Wrappers
  import opened Errors

  const PREFIX: string := "v1:"
  /** SODIUM_CRYPTO_SECRETBOX_KEYBYTES */
  const KEY_BYTES: nat := 32
  /** SODIUM_CRYPTO_SECRETBOX_NONCEBYTES */
  const NONCE_BYTES: nat := 24
  /** SODIUM_CRYPTO_SECRETBOX_MACBYTES */
  const MAC_BYTES: nat := 16

  datatype Primitives = Primitives(
    seal: (string, string, string) -> string,          // sodium_crypto_secretbox(message, nonce, key)
    open: (string, string, string) -> Option<string>,  // sodium_crypto_secretbox_open(cipher, nonce, key)
    base64Encode: string -> string,                    // base64_encode
    base64Decode: string -> Option<string>)            // base64_decode($s, true)

  /** The laws of authenticated encryption and strict base64 the proofs use. */
  ghost predicate WellBehaved(p: Primitives) {
    && (forall m, n, k {:trigger p.seal(m, n, k)} :: p.open(p.seal(m, n, k), n, k) == Some(m))
    && (forall m, n, k, k' {:trigger p.open(p.seal(m, n, k), n, k')} ::
          p.open(p.seal(m, n, k), n, k').Some? ==> k' == k)
    && (forall m, n, k {:trigger p.seal(m, n, k)} :: |p.seal(m, n, k)| >= MAC_BYTES)
    && (forall s {:trigger p.base64Encode(s)} :: p.base64Decode(p.base64Encode(s)) == Some(s))
    && (forall s {:trigger p.base64Decode(s)} ::
          p.base64Decode(s).Some? ==> 4 * |p.base64Decode(s).value| <= 3 * |s|)
  }

  /** The key material in force: none, or the primary key, the previous keys and the plaintext policy. */
  datatype Encryption =
    | Off
    | On(primary: string, previous: seq<string>, allowPlaintext: bool)
  {
    /** `$this->encryptionKeys`: the primary key first, then the previous keys in order. */
    function Keys(): seq<string>
      requires On?
    {
      [primary] + previous
    }
  }

  /**
   * The `encryption` options as the store receives them: `key ?? null`, then
   * `previous_keys ?? []` as the values of the array in iteration order (`None`
   * for a value that is not an array), then `allow_plaintext ?? false`.
   */
  datatype EncryptionOptions = EncryptionOptions(key: Value, previousKeys: Option<seq<Value>>, allowPlaintext: Value)

  predicate IsHexKey(key: string) {
    |key| == 2 * KEY_BYTES && forall i :: 0 <= i < |key| ==> IsHexDigit(key[i])
  }

  /**
   * `normalizeEncryptionKey`: 64 hex digits are decoded; otherwise strict base64 is
   * tried; only when that fails is the key taken as raw bytes. The result must be 32 bytes.
   */
  function NormalizeKey(p: Primitives, key: string): (r: Result<string, SessionError>)
    ensures r.Success? ==> |r.value| == KEY_BYTES
    ensures r.Failure? ==> r.error == EncryptionKeyLength
    ensures IsHexKey(key) ==> r == Success(Hex2Bin(key))
    ensures !IsHexKey(key) && p.base64Decode(key).Some? ==>
              r == (if |p.base64Decode(key).value| == KEY_BYTES then Success(p.base64Decode(key).value)
                    else Failure(EncryptionKeyLength))
    ensures !IsHexKey(key) && p.base64Decode(key).None? ==>
              r == (if |key| == KEY_BYTES then Success(key) else Failure(EncryptionKeyLength))
  {
    var raw :=
      if IsHexKey(key) then Hex2Bin(key)
      else if p.base64Decode(key).Some? then p.base64Decode(key).value
      else key;
    if |raw| == KEY_BYTES then Success(raw) else Failure(EncryptionKeyLength)
  }

  /** The quirk of base64-first normalisation: a 32-character raw key that is valid base64 is rejected. */
  lemma RawKeyShadowedByBase64(p: Primitives, key: string)
    requires WellBehaved(p)
    requires |key| == KEY_BYTES && p.base64Decode(key).Some?
    ensures NormalizeKey(p, key) == Failure(EncryptionKeyLength)
  {
    assert 4 * |p.base64Decode(key).value| <= 3 * |key|;
  }

  /** Normalises each previous key in order; the first entry that is not a non-empty string, or is malformed, fails the whole list. */
  function NormalizePrevious(p: Primitives, keys: seq<Value>): (r: Result<seq<string>, SessionError>)
    ensures r.Success? ==> |r.value| == |keys| && forall i :: 0 <= i < |keys| ==> |r.value[i]| == KEY_BYTES
    ensures r.Success? ==> forall i :: 0 <= i < |keys| ==> keys[i].Str? && NormalizeKey(p, keys[i].s) == Success(r.value[i])
    ensures r.Failure? <==>
              exists i :: 0 <= i < |keys| && (!keys[i].Str? || keys[i].s == [] || NormalizeKey(p, keys[i].s).Failure?)
    ensures r.Failure? && (forall i :: 0 <= i < |keys| ==> keys[i].Str? && keys[i].s != []) ==> r.error == EncryptionKeyLength
  {
    if keys == [] then Success([])
    else if !keys[0].Str? || keys[0].s == [] then Failure(PreviousKeyEmpty)
    else
      match NormalizeKey(p, keys[0].s)
      case Failure(e) => Failure(e)
      case Success(k) =>
        match NormalizePrevious(p, keys[1..])
        case Failure(e) => Failure(e)
        case Success(ks) =>
          assert forall i :: 1 <= i < |keys| ==> keys[i] == keys[1..][i - 1];
          Success([k] + ks)
  }

  /** Invariant of configured key material: every key is exactly 32 bytes. */
  predicate KeysWellFormed(e: Encryption) {
    e.On? ==> |e.primary| == KEY_BYTES && forall i :: 0 <= i < |e.previous| ==> |e.previous[i]| == KEY_BYTES
  }

  /** `normalizeEncryptionOptions` for a non-empty option set. */
  function Configure(p: Primitives, opts: EncryptionOptions): (r: Result<Encryption, SessionError>)
    ensures r.Success? ==> r.value.On? && KeysWellFormed(r.value)
    ensures r.Success? ==>
              && r.value.allowPlaintext == BoolCast(opts.allowPlaintext)
              && opts.previousKeys.Some? && |r.value.previous| == |opts.previousKeys.value|
    ensures !opts.key.Str? || opts.key.s == [] ==> r == Failure(EncryptionKeyRequired)
    ensures opts.key.Str? && opts.key.s != [] && NormalizeKey(p, opts.key.s).Success? && opts.previousKeys.None? ==>
              r == Failure(PreviousKeysNotArray)
    ensures r.Success? <==>
              && opts.key.Str? && opts.key.s != []
              && NormalizeKey(p, opts.key.s).Success?
              && opts.previousKeys.Some?
              && NormalizePrevious(p, opts.previousKeys.value).Success?
  {
    if !opts.key.Str? || opts.key.s == [] then Failure(EncryptionKeyRequired)
    else
      match NormalizeKey(p, opts.key.s)
      case Failure(e) => Failure(e)
      case Success(primary) =>
        if opts.previousKeys.None? then Failure(PreviousKeysNotArray)
        else
          match NormalizePrevious(p, opts.previousKeys.value)
          case Failure(e) => Failure(e)
          case Success(previous) => Success(On(primary, previous, BoolCast(opts.allowPlaintext)))
  }

  /** Options of the wrong PHP type are refused, each with its own error, before any key material is kept. */
  lemma ConfigureRejectsMistypedOptions(p: Primitives, key: string)
    requires NormalizeKey(p, key).Success? && key != []
    ensures Configure(p, EncryptionOptions(Int(1), Some([]), Null)) == Failure(EncryptionKeyRequired)
    ensures Configure(p, EncryptionOptions(Str(key), None, Null)) == Failure(PreviousKeysNotArray)
    ensures Configure(p, EncryptionOptions(Str(key), Some([Int(1)]), Null)) == Failure(PreviousKeyEmpty)
    ensures Configure(p, EncryptionOptions(Str(key), Some([]), Str("0"))).value.allowPlaintext == false
  {
  }

  /** `encryptPayload`: unchanged without a key, else the `v1:` envelope sealed under the primary key. */
  function Encrypt(p: Primitives, e: Encryption, payload: string, nonce: string): (r: string)
    ensures e.Off? ==> r == payload
    ensures e.On? ==> StartsWith(r, PREFIX)
  {
    if e.Off? then payload
    else PREFIX + p.base64Encode(nonce + p.seal(payload, nonce, e.primary))
  }

  /**
   * The inner loop of `decryptPayload`: open the ciphertext with each key in turn;
   * the first key that opens it decides the plaintext.
   */
  function TryKeys(p: Primitives, cipher: string, nonce: string, keys: seq<string>): (r: Option<string>)
    ensures r.None? <==> forall i :: 0 <= i < |keys| ==> p.open(cipher, nonce, keys[i]).None?
  {
    if keys == [] then None
    else if p.open(cipher, nonce, keys[0]).Some? then p.open(cipher, nonce, keys[0])
    else
      assert forall i :: 1 <= i < |keys| ==> keys[i] == keys[1..][i - 1];
      TryKeys(p, cipher, nonce, keys[1..])
  }

  /** The first key that opens the ciphertext decides the plaintext. */
  lemma {:induction false} TryKeysFirstSuccess(p: Primitives, cipher: string, nonce: string, keys: seq<string>, i: nat)
    requires i < |keys| && p.open(cipher, nonce, keys[i]).Some?
    requires forall j :: 0 <= j < i ==> p.open(cipher, nonce, keys[j]).None?
    ensures TryKeys(p, cipher, nonce, keys) == p.open(cipher, nonce, keys[i])
  {
    if i > 0 {
      assert keys[1..][i - 1] == keys[i];
      assert forall j :: 0 <= j < i - 1 ==> keys[1..][j] == keys[j + 1];
      TryKeysFirstSuccess(p, cipher, nonce, keys[1..], i - 1);
    }
  }

  /** Conversely, a plaintext returned by `TryKeys` comes from the first key that opens the ciphertext. */
  lemma {:induction false} TryKeysResult(p: Primitives, cipher: string, nonce: string, keys: seq<string>)
    requires TryKeys(p, cipher, nonce, keys).Some?
    ensures exists i :: 0 <= i < |keys| && p.open(cipher, nonce, keys[i]) == TryKeys(p, cipher, nonce, keys)
              && forall j :: 0 <= j < i ==> p.open(cipher, nonce, keys[j]).None?
  {
    if p.open(cipher, nonce, keys[0]).None? {
      TryKeysResult(p, cipher, nonce, keys[1..]);
      var i :| 0 <= i < |keys[1..]| && p.open(cipher, nonce, keys[1..][i]) == TryKeys(p, cipher, nonce, keys[1..])
               && forall j :: 0 <= j < i ==> p.open(cipher, nonce, keys[1..][j]).None?;
      assert keys[i + 1] == keys[1..][i];
      forall j | 0 <= j < i + 1 ensures p.open(cipher, nonce, keys[j]).None? {
        if j > 0 { assert keys[j] == keys[1..][j - 1]; }
      }
    }
  }

  /** `decryptPayload`. */
  function Decrypt(p: Primitives, e: Encryption, payload: string): (r: Result<string, SessionError>)
  {
    if e.Off? then Success(payload)
    else if !StartsWith(payload, PREFIX) then
      if e.allowPlaintext then Success(payload) else Failure(EncryptedPayloadExpected)
    else
      match p.base64Decode(payload[|PREFIX|..])
      case None => Failure(InvalidPayloadEncoding)
      case Some(decoded) =>
        if |decoded| <= NONCE_BYTES then Failure(InvalidEncryptedPayload)
        else
          match TryKeys(p, decoded[NONCE_BYTES..], decoded[..NONCE_BYTES], e.Keys())
          case None => Failure(DecryptionFailed)
          case Some(plain) => Success(plain)
  }

  /** Without the version tag a payload is passed through exactly when plaintext is allowed. */
  lemma PlaintextPolicy(p: Primitives, e: Encryption, payload: string)
    requires e.On? && !StartsWith(payload, PREFIX)
    ensures e.allowPlaintext ==> Decrypt(p, e, payload) == Success(payload)
    ensures !e.allowPlaintext ==> Decrypt(p, e, payload) == Failure(EncryptedPayloadExpected)
  {
  }

  /** What a successful decryption of an envelope means: some configured key opens it, and none before it does. */
  lemma DecryptedByFirstOpeningKey(p: Primitives, e: Encryption, payload: string, plain: string)
    requires e.On? && StartsWith(payload, PREFIX)
    requires Decrypt(p, e, payload) == Success(plain)
    ensures p.base64Decode(payload[|PREFIX|..]).Some?
    ensures var decoded := p.base64Decode(payload[|PREFIX|..]).value;
            |decoded| > NONCE_BYTES &&
            exists i :: 0 <= i < |e.Keys()| && p.open(decoded[NONCE_BYTES..], decoded[..NONCE_BYTES], e.Keys()[i]) == Some(plain)
              && forall j :: 0 <= j < i ==> p.open(decoded[NONCE_BYTES..], decoded[..NONCE_BYTES], e.Keys()[j]).None?
  {
    TryKeysResult(p, p.base64Decode(payload[|PREFIX|..]).value[NONCE_BYTES..],
                  p.base64Decode(payload[|PREFIX|..]).value[..NONCE_BYTES], e.Keys());
  }

  /** Opening an envelope sealed with a nonce of the right size: split off the nonce, then try the keys. */
  lemma OpenEnvelope(p: Primitives, sealKey: string, e: Encryption, payload: string, nonce: string)
    requires WellBehaved(p) && e.On? && |nonce| == NONCE_BYTES
    ensures var env := PREFIX + p.base64Encode(nonce + p.seal(payload, nonce, sealKey));
            Decrypt(p, e, env) ==
              match TryKeys(p, p.seal(payload, nonce, sealKey), nonce, e.Keys())
              case None => Failure(DecryptionFailed)
              case Some(plain) => Success(plain)
  {
    var cipher := p.seal(payload, nonce, sealKey);
    var env := PREFIX + p.base64Encode(nonce + cipher);
    assert StartsWith(env, PREFIX);
    assert env[|PREFIX|..] == p.base64Encode(nonce + cipher);
    var decoded := nonce + cipher;
    assert p.base64Decode(env[|PREFIX|..]) == Some(decoded);
    assert |cipher| >= MAC_BYTES;
    assert decoded[NONCE_BYTES..] == cipher && decoded[..NONCE_BYTES] == nonce;
  }

  /** Round trip: an envelope made under the current configuration decrypts to the original payload. */
  lemma EncryptDecrypt(p: Primitives, e: Encryption, payload: string, nonce: string)
    requires WellBehaved(p) && |nonce| == NONCE_BYTES
    ensures Decrypt(p, e, Encrypt(p, e, payload, nonce)) == Success(payload)
  {
    if e.On? {
      OpenEnvelope(p, e.primary, e, payload, nonce);
    }
  }

  /**
   * Rotation: an envelope sealed under `a` still opens once `b` is primary and `a`
   * is listed as previous, and no longer opens under a configuration that holds only `b`.
   */
  lemma RotationKeepsOldEnvelopesReadable(p: Primitives, a: string, b: string, payload: string, nonce: string, plain: bool)
    requires WellBehaved(p) && |nonce| == NONCE_BYTES && a != b
    ensures var env := Encrypt(p, On(a, [], plain), payload, nonce);
            && Decrypt(p, On(b, [a], plain), env) == Success(payload)
            && Decrypt(p, On(b, [], plain), env) == Failure(DecryptionFailed)
  {
    var cipher := p.seal(payload, nonce, a);
    OpenEnvelope(p, a, On(b, [a], plain), payload, nonce);
    OpenEnvelope(p, a, On(b, [], plain), payload, nonce);
    assert p.open(cipher, nonce, b).None?;
    assert On(b, [a], plain).Keys() == [b, a];
    assert TryKeys(p, cipher, nonce, [b, a]) == Some(payload) by {
      assert [b, a][1..] == [a];
      assert TryKeys(p, cipher, nonce, [a]) == Some(payload);
    }
  }

  // A concrete model of the primitive laws, showing `WellBehaved` is not vacuous.

  /** A prefix-free code for keys: `1c` per character, then `0`. */
  function KeyCode(k: string): string {
    if k == [] then "0" else ['1', k[0]] + KeyCode(k[1..])
  }

  lemma {:induction false} KeyCodePrefixFree(k: string, k': string, rest: string)
    requires StartsWith(KeyCode(k) + rest, KeyCode(k'))
    ensures k' == k
    decreases |k|
  {
    var c, c' := KeyCode(k) + rest, KeyCode(k');
    if k == [] {
      assert c[0] == '0';
    } else {
      assert c[0] == '1';
      if k' != [] {
        assert c[1] == k[0] && c'[1] == k'[0];
        assert c[1] == c'[1];
        assert KeyCode(k) + rest == ['1', k[0]] + (KeyCode(k[1..]) + rest);
        assert StartsWith(KeyCode(k[1..]) + rest, KeyCode(k'[1..])) by {
          assert (KeyCode(k[1..]) + rest)[..|KeyCode(k'[1..])|] == c[2..][..|c'| - 2];
          assert c'[2..] == KeyCode(k'[1..]);
        }
        KeyCodePrefixFree(k[1..], k'[1..], rest);
      }
    }
  }

  function Tag(k: string): string {
    seq(MAC_BYTES, _ => 'x') + KeyCode(k)
  }

  lemma TagPrefixFree(k: string, k': string, rest: string)
    requires StartsWith(Tag(k) + rest, Tag(k'))
    ensures k' == k
  {
    var pad := seq(MAC_BYTES, _ => 'x');
    assert Tag(k) + rest == pad + (KeyCode(k) + rest);
    assert (pad + (KeyCode(k) + rest))[MAC_BYTES..] == KeyCode(k) + rest;
    assert Tag(k')[MAC_BYTES..] == KeyCode(k');
    assert StartsWith(KeyCode(k) + rest, KeyCode(k')) by {
      assert (KeyCode(k) + rest)[..|KeyCode(k')|] == (Tag(k) + rest)[MAC_BYTES..][..|KeyCode(k')|];
    }
    KeyCodePrefixFree(k, k', rest);
  }

  function HalfIfDoubled(t: string): Option<string> {
    if |t| % 2 == 0 && t[..|t| / 2] == t[|t| / 2..] then Some(t[..|t| / 2]) else None
  }

  lemma WellBehavedIsSatisfiable()
    ensures exists p :: WellBehaved(p)
  {
    var p := Primitives(
      (m, n, k) => Tag(k) + m,
      (c, n, k) => if StartsWith(c, Tag(k)) then Some(c[|Tag(k)|..]) else None,
      s => s + s,
      HalfIfDoubled);
    forall m, n, k ensures p.open(p.seal(m, n, k), n, k) == Some(m) {
      assert (Tag(k) + m)[|Tag(k)|..] == m;
    }
    forall m, n, k, k' | p.open(p.seal(m, n, k), n, k').Some? ensures k' == k {
      TagPrefixFree(k, k', m);
    }
    forall s ensures p.base64Decode(p.base64Encode(s)) == Some(s) {
      assert (s + s)[..|s|] == s && (s + s)[|s|..] == s;
    }
    assert WellBehaved(p);
  }
}
