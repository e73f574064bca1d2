/**
 * The session store: an id, the session's key/value data (with expiry and flash
 * bookkeeping under reserved keys), and a handler the data is persisted to. Every
 * mutating operation persists the whole map through the handler; reads purge or
 * sweep expired keys first and persist when that removed something.
 *
 * The clock is the `now` argument of each public operation (one reading per
 * call); randomness is the `entropy` stream, drawn in order through `draws`.
 */
module SessionStore {
  import opened Php
  import opened Wrappers
  import opened Errors
  import opened Identity
  import opened Envelope
  import opened Json
  import opened Cookies
  import opened SessionData
  import opened ArrayHandler

  /** Whether a read at `now` sweeps anything away, and so persists once. */
  function SweepWrites(d: Data, now: int): nat {
    if ExpiredKeys(d, now) == {} then 0 else 1
  }

  /** Whether `start` re-persists a plaintext payload in the encrypted format. */
  predicate Migrates(e: Encryption, raw: string) {
    e.On? && e.allowPlaintext && !StartsWith(raw, PREFIX)
  }

  /** A second write under the same id replaces the first. */
  lemma Overwrite(m: map<string, string>, k: string, x: string, y: string)
    ensures m[k := x][k := y] == m[k := y]
  {
  }

  /** The random stream hands out exactly the number of bytes asked for. */
  ghost predicate EntropyWellFormed(entropy: (nat, nat) -> string) {
    forall i, n {:trigger entropy(i, n)} :: |entropy(i, n)| == n
  }

  class Store {
    var id: string
    var data: Data
    const handler: ArraySessionHandler
    const cookie: CookieConfig
    var encryption: Encryption
    const prims: Primitives
    const codec: Codec
    /** `entropy(i, n)`: the `i`-th draw of `n` random bytes. */
    const entropy: (nat, nat) -> string
    /** How many random draws have been made so far. */
    var draws: nat

    ghost predicate Valid()
      reads this`id, this`encryption
    {
      IsValidId(id) && KeysWellFormed(encryption) && EntropyWellFormed(entropy)
    }

    /**
     * The payload `persist` writes for data `d` under encryption `e` when the
     * random stream stands at `draws` afterwards: the encoding of `d`, sealed
     * with the latest nonce when encryption is on.
     */
    function Sealed(d: Data, e: Encryption, draws: nat): string {
      Encrypt(prims, e, codec.encode(d), entropy(if draws == 0 then 0 else draws - 1, NONCE_BYTES))
    }

    /** What is stored under the current id. */
    function Stored(): string
      reads this`id, handler
    {
      handler.Stored(id)
    }

    /**
     * Between the two states the store persisted `n` times: the handler saw `n`
     * writes, each drew one nonce when encryption is on, and (for `n > 0`) the
     * current id now holds the current data.
     */
    twostate predicate Wrote(n: nat)
      reads this, handler
    {
      && handler.writes == old(handler.writes) + n
      && draws == old(draws) + (if encryption.On? then n else 0)
      && handler.storage == if n == 0 then old(handler.storage) else old(handler.storage)[id := Sealed(data, encryption, draws)]
    }

    constructor Init(handler: ArraySessionHandler, id: string, cookie: CookieConfig, encryption: Encryption,
                     prims: Primitives, codec: Codec, entropy: (nat, nat) -> string, draws: nat)
      requires IsValidId(id) && KeysWellFormed(encryption) && EntropyWellFormed(entropy)
      ensures Valid() && data == map[]
      ensures this.handler == handler && this.id == id && this.cookie == cookie && this.encryption == encryption
      ensures this.prims == prims && this.codec == codec && this.entropy == entropy && this.draws == draws
    {
      this.id := id;
      this.data := map[];
      this.handler := handler;
      this.cookie := cookie;
      this.encryption := encryption;
      this.prims := prims;
      this.codec := codec;
      this.entropy := entropy;
      this.draws := draws;
    }

    /**
     * `__construct`: an explicit id must be valid; otherwise the cookie's id is
     * kept when valid, else a fresh one is drawn. Cookie options are normalised;
     * an empty encryption option set leaves encryption off, any other is
     * validated and may fail.
     */
    static method Open(handler: ArraySessionHandler, explicit: Option<string>, cookieId: Option<Value>,
                       cookieOptions: map<string, Value>, https: bool, encryptionOptions: Option<EncryptionOptions>,
                       prims: Primitives, codec: Codec, entropy: (nat, nat) -> string, draws: nat)
      returns (r: Result<Store, SessionError>)
      requires EntropyWellFormed(entropy)
      ensures var choice := ChooseId(explicit, cookieId, entropy(draws, ID_RANDOM_BYTES));
              var config := if encryptionOptions.None? then Success(Off) else Configure(prims, encryptionOptions.value);
              && (r.Failure? <==> choice.Failure? || config.Failure?)
              && (choice.Failure? ==> r == Failure(choice.error))
              && (choice.Success? && config.Failure? ==> r == Failure(config.error))
              && (r.Success? ==>
                    && fresh(r.value) && r.value.Valid() && r.value.data == map[]
                    && r.value.handler == handler && r.value.id == choice.value
                    && r.value.cookie == NormalizeCookieOptions(cookieOptions, https)
                    && r.value.encryption == config.value
                    && r.value.prims == prims && r.value.codec == codec && r.value.entropy == entropy
                    && r.value.draws == draws + if explicit.None? && !IsValidCandidate(cookieId) then 1 else 0)
    {
      var random := entropy(draws, ID_RANDOM_BYTES);
      var choice := ChooseId(explicit, cookieId, random);
      if choice.Failure? {
        return Failure(choice.error);
      }
      var drawn := if explicit.None? && !IsValidCandidate(cookieId) then 1 else 0;
      var cookie := NormalizeCookieOptions(cookieOptions, https);
      var encryption := Off;
      if encryptionOptions.Some? {
        var config := Configure(prims, encryptionOptions.value);
        if config.Failure? {
          return Failure(config.error);
        }
        encryption := config.value;
      }
      var store := new Store.Init(handler, choice.value, cookie, encryption, prims, codec, entropy, draws + drawn);
      return Success(store);
    }

    /** `random_bytes($n)`: the next draw of the entropy stream. */
    method RandomBytes(n: nat) returns (r: string)
      requires Valid()
      modifies this`draws
      ensures r == entropy(old(draws), n) && |r| == n
      ensures draws == old(draws) + 1
    {
      r := entropy(draws, n);
      draws := draws + 1;
    }

    /** `encryptPayload`: unchanged without a key, else sealed under the primary key with a fresh nonce. */
    method EncryptPayload(payload: string) returns (r: string)
      requires Valid()
      modifies this`draws
      ensures r == Encrypt(prims, encryption, payload, entropy(old(draws), NONCE_BYTES))
      ensures draws == old(draws) + (if encryption.On? then 1 else 0)
    {
      if encryption.Off? {
        return payload;
      }
      var nonce := RandomBytes(NONCE_BYTES);
      var cipher := prims.seal(payload, nonce, encryption.primary);
      r := PREFIX + prims.base64Encode(nonce + cipher);
    }

    /** `decryptPayload`: try the primary key, then each previous key, in order. */
    method DecryptPayload(payload: string) returns (r: Result<string, SessionError>)
      ensures r == Decrypt(prims, encryption, payload)
    {
      if encryption.Off? {
        return Success(payload);
      }
      if !StartsWith(payload, PREFIX) {
        if encryption.allowPlaintext {
          return Success(payload);
        }
        return Failure(EncryptedPayloadExpected);
      }
      var decoded := prims.base64Decode(payload[|PREFIX|..]);
      if decoded.None? {
        return Failure(InvalidPayloadEncoding);
      }
      if |decoded.value| <= NONCE_BYTES {
        return Failure(InvalidEncryptedPayload);
      }
      var nonce := decoded.value[..NONCE_BYTES];
      var cipher := decoded.value[NONCE_BYTES..];
      var keys := encryption.Keys();
      for i := 0 to |keys|
        invariant forall j :: 0 <= j < i ==> prims.open(cipher, nonce, keys[j]).None?
      {
        var plain := prims.open(cipher, nonce, keys[i]);
        if plain.Some? {
          TryKeysFirstSuccess(prims, cipher, nonce, keys, i);
          return Success(plain.value);
        }
      }
      return Failure(DecryptionFailed);
    }

    /** `persist`: encode the whole map, encrypt it when configured, write it under the current id. */
    method Persist()
      requires Valid()
      modifies this`draws, handler
      ensures Wrote(1)
    {
      var encoded := codec.encode(data);
      var payload := EncryptPayload(encoded);
      var _ := handler.Write(id, payload);
    }

    /** `purgeExpiredKey`: drop the key when its expiry has passed, and say whether it did. */
    method PurgeExpiredKey(key: string, now: int) returns (purged: bool)
      modifies this`data
      ensures purged == Expired(old(data), key, now)
      ensures data == Purge(old(data), key, now)
    {
      var ttl := TtlMap(data);
      if key !in ttl {
        return false;
      }
      if IntCast(ttl[key]) > now {
        return false;
      }
      ttl := ttl - {key};
      data := data - {key};
      data := WithTtlMap(data, ttl);
      return true;
    }

    /** `sweepExpired`: remove every expired key in one pass, persisting once if anything went. */
    method SweepExpired(now: int)
      requires Valid()
      modifies this`data, this`draws, handler
      ensures data == Sweep(old(data), now)
      ensures Wrote(SweepWrites(old(data), now))
    {
      var ttl := TtlMap(data);
      if ttl == map[] {
        return;
      }
      ghost var data0 := data;
      ghost var expired := ExpiredKeys(data0, now);
      ghost var removed: set<string> := {};
      var snapshot := ttl;
      var changed := false;
      var pending := ttl.Keys;
      while pending != {}
        modifies this`data
        invariant pending <= snapshot.Keys
        invariant removed == expired - pending
        invariant ttl == snapshot - removed
        invariant data == data0 - removed
        invariant changed <==> removed != {}
        decreases pending
      {
        var key :| key in pending;
        if IntCast(snapshot[key]) <= now {
          ttl := ttl - {key};
          data := data - {key};
          changed := true;
          removed := removed + {key};
        }
        pending := pending - {key};
      }
      assert removed == expired;
      if changed {
        data := WithTtlMap(data, ttl);
        assert data == Sweep(data0, now);
        Persist();
      } else {
        assert data == data0;
      }
    }

    /** `start`: load the stored payload, decrypt and decode it, migrate plaintext, age flash data. */
    method Start() returns (r: Outcome<SessionError>)
      requires Valid()
      modifies this`data, this`draws, handler
      ensures old(Stored()) == "" ==> r.Pass? && data == map[] && Wrote(0)
      ensures var raw := old(Stored());
              var plain := Decrypt(prims, encryption, raw);
              raw != "" && plain.Failure? ==> r == Fail(plain.error) && data == old(data) && Wrote(0)
      ensures var raw := old(Stored());
              var plain := Decrypt(prims, encryption, raw);
              raw != "" && plain.Success? && codec.decode(plain.value).None? ==>
                r == Fail(InvalidSessionPayload) && data == old(data) && Wrote(0)
      ensures var raw := old(Stored());
              var plain := Decrypt(prims, encryption, raw);
              raw != "" && plain.Success? && codec.decode(plain.value).Some? ==>
                var loaded := codec.decode(plain.value).value;
                && r.Pass? && data == AgeFlash(loaded).0
                && Wrote((if Migrates(encryption, raw) then 1 else 0) + (if AgeFlash(loaded).1 then 1 else 0))
    {
      var raw := handler.Read(id);
      if raw == "" {
        data := map[];
        return Pass;
      }
      var plain := DecryptPayload(raw);
      if plain.Failure? {
        return Fail(plain.error);
      }
      var loaded := codec.decode(plain.value);
      if loaded.None? {
        return Fail(InvalidSessionPayload);
      }
      data := loaded.value;
      Settle(raw);
      return Pass;
    }

    /** The tail of `start` once the data is loaded: migrate a plaintext payload, then age the flash data. */
    method Settle(raw: string)
      requires Valid()
      modifies this`data, this`draws, handler
      ensures data == AgeFlash(old(data)).0
      ensures Wrote((if Migrates(encryption, raw) then 1 else 0) + (if AgeFlash(old(data)).1 then 1 else 0))
    {
      AgeFlashDropsOldAndShifts(data);
      ghost var migrate := if Migrates(encryption, raw) then 1 else 0;
      ghost var aged := if AgeFlash(data).1 then 1 else 0;
      ghost var storage0, writes0, draws0 := handler.storage, handler.writes, draws;
      MaybeMigratePlaintext(raw);
      ghost var storage1 := handler.storage;
      assert handler.writes == writes0 + migrate && draws == draws0 + (if encryption.On? then migrate else 0);
      AgeFlashData();
      assert handler.writes == writes0 + migrate + aged;
      if migrate == 1 && aged == 1 {
        Overwrite(storage0, id, storage1[id], handler.storage[id]);
      }
    }

    /** `maybeMigratePlaintext`: with plaintext allowed, a payload without the version tag is rewritten encrypted. */
    method MaybeMigratePlaintext(raw: string)
      requires Valid()
      modifies this`draws, handler
      ensures Wrote(if Migrates(encryption, raw) then 1 else 0)
    {
      if encryption.Off? || !encryption.allowPlaintext {
        return;
      }
      if StartsWith(raw, PREFIX) {
        return;
      }
      Persist();
    }

    /** `ageFlashData`: drop the keys flashed two requests ago and shift the flash generations. */
    method AgeFlashData()
      requires Valid()
      modifies this`data, this`draws, handler
      ensures data == AgeFlash(old(data)).0
      ensures Wrote(if AgeFlash(old(data)).1 then 1 else 0)
    {
      var changed := false;
      ghost var data0 := data;
      var names := FlashedKeys(Lookup(data, FLASH_OLD));
      var pending := names;
      while pending != {}
        modifies this`data
        invariant pending <= names
        invariant data == data0 - (names - pending)
        invariant changed <==> (names - pending) * data0.Keys != {}
        decreases pending
      {
        var key :| key in pending;
        if key in data {
          data := data - {key};
          changed := true;
        }
        pending := pending - {key};
      }
      assert data == data0 - names * data0.Keys;
      var next := Lookup(data, FLASH_NEW);
      if !IsArray(next) {
        next := List([]);
      }
      if !Identical(Lookup(data, FLASH_OLD), next) {
        data := data[FLASH_OLD := next];
        changed := true;
      }
      if !Identical(Lookup(data, FLASH_NEW), List([])) {
        data := data[FLASH_NEW := List([])];
        changed := true;
      }
      if changed {
        Persist();
      }
    }

    /** `regenerateId`: persist the data under a freshly drawn id, optionally destroying the old entry. */
    method RegenerateId(destroyOld: bool)
      requires Valid()
      modifies this`id, this`draws, handler
      ensures id == FreshId(entropy(old(draws), ID_RANDOM_BYTES))
      ensures handler.writes == old(handler.writes) + 1
      ensures draws == old(draws) + 1 + (if encryption.On? then 1 else 0)
      ensures handler.storage == old(handler.storage)[id := Sealed(data, encryption, draws)] - (if destroyOld then {old(id)} else {})
    {
      var oldId := id;
      var random := RandomBytes(ID_RANDOM_BYTES);
      id := FreshId(random);
      Persist();
      if destroyOld {
        var _ := handler.Destroy(oldId);
      }
    }

    /** The lazy purge every single-key read starts with, persisted when it removed something. */
    method PurgeAndPersist(key: string, now: int) returns (purged: bool)
      requires Valid()
      modifies this`data, this`draws, handler
      ensures purged == Expired(old(data), key, now)
      ensures data == Purge(old(data), key, now)
      ensures Wrote(if purged then 1 else 0)
    {
      purged := PurgeExpiredKey(key, now);
      if purged {
        Persist();
      }
    }

    /** `get`: the stored value, or the default for an expired, missing or null entry. */
    method Get(key: string, default: Value, now: int) returns (v: Value)
      requires Valid()
      modifies this`data, this`draws, handler
      ensures v == GetValue(old(data), key, default, now)
      ensures data == Purge(old(data), key, now)
      ensures Wrote(if Expired(old(data), key, now) then 1 else 0)
    {
      var purged := PurgeExpiredKey(key, now);
      if purged {
        Persist();
        return default;
      }
      v := Coalesce(data, key, default);
    }

    /** `has`: whether the key is present and not expired. */
    method Has(key: string, now: int) returns (b: bool)
      requires Valid()
      modifies this`data, this`draws, handler
      ensures b == HasKey(old(data), key, now)
      ensures data == Purge(old(data), key, now)
      ensures Wrote(if Expired(old(data), key, now) then 1 else 0)
    {
      var purged := PurgeExpiredKey(key, now);
      if purged {
        Persist();
        return false;
      }
      b := key in data;
    }

    /** `keys`: the visible keys (with the prefix, when given) after sweeping expired ones. */
    method Keys(prefix: Option<string>, now: int) returns (keys: seq<string>)
      requires Valid()
      modifies this`data, this`draws, handler
      ensures data == Sweep(old(data), now)
      ensures forall k :: k in keys <==> k in KeysView(data, prefix)
      ensures NoDuplicates(keys) && |keys| == |KeysView(data, prefix)|
      ensures Wrote(SweepWrites(old(data), now))
    {
      SweepExpired(now);
      keys := [];
      var pending := data.Keys;
      while pending != {}
        invariant pending <= data.Keys
        invariant forall k :: k in keys <==> k in KeysView(data, prefix) && k !in pending
        invariant NoDuplicates(keys)
        decreases pending
      {
        var key :| key in pending;
        if Visible(key) && (prefix.None? || StartsWith(key, prefix.value)) {
          keys := keys + [key];
        }
        pending := pending - {key};
      }
      DistinctCardinality(keys);
      assert (set k | k in keys) == KeysView(data, prefix);
    }

    /** `keysMatch`: the visible keys matching the pattern, after sweeping expired ones. */
    method KeysMatch(pattern: string, now: int) returns (keys: seq<string>)
      requires Valid()
      modifies this`data, this`draws, handler
      ensures data == Sweep(old(data), now)
      ensures forall k :: k in keys <==> k in MatchingKeys(data, pattern)
      ensures NoDuplicates(keys)
      ensures Wrote(SweepWrites(old(data), now))
    {
      SweepExpired(now);
      keys := [];
      var pending := data.Keys;
      while pending != {}
        invariant pending <= data.Keys
        invariant forall k :: k in keys <==> k in MatchingKeys(data, pattern) && k !in pending
        invariant NoDuplicates(keys)
        decreases pending
      {
        var key :| key in pending;
        if Visible(key) && Glob.MatchesPattern(key, pattern) {
          keys := keys + [key];
        }
        pending := pending - {key};
      }
    }

    /** `count`: how many visible keys remain after sweeping expired ones. */
    method Count(now: int) returns (n: nat)
      requires Valid()
      modifies this`data, this`draws, handler
      ensures data == Sweep(old(data), now)
      ensures n == |KeysView(data, None)|
      ensures Wrote(SweepWrites(old(data), now))
    {
      SweepExpired(now);
      n := 0;
      ghost var counted: set<string> := {};
      var pending := data.Keys;
      while pending != {}
        invariant pending <= data.Keys
        invariant counted == KeysView(data, None) - pending
        invariant n == |counted|
        decreases pending
      {
        var key :| key in pending;
        if Visible(key) {
          counted := counted + {key};
          n := n + 1;
        }
        pending := pending - {key};
      }
    }

    /** `dump`: the swept data without bookkeeping entries, with listed or matching keys redacted. */
    method Dump(redactKeys: seq<string>, redactPatterns: seq<string>, now: int) returns (m: Data)
      requires Valid()
      modifies this`data, this`draws, handler
      ensures data == Sweep(old(data), now)
      ensures m == SessionData.Dump(data, redactKeys, redactPatterns)
      ensures Wrote(SweepWrites(old(data), now))
    {
      SweepExpired(now);
      m := SessionData.Dump(data, redactKeys, redactPatterns);
    }

    /** `all`: the whole swept map, bookkeeping entries included. */
    method All(now: int) returns (m: Data)
      requires Valid()
      modifies this`data, this`draws, handler
      ensures m == data == Sweep(old(data), now)
      ensures Wrote(SweepWrites(old(data), now))
    {
      SweepExpired(now);
      m := data;
    }

    /** `put`: set the value, drop any expiry, persist. */
    method Put(key: string, value: Value)
      requires Valid()
      modifies this`data, this`draws, handler
      ensures data == SessionData.Put(old(data), key, value)
      ensures Wrote(1)
    {
      data := data[key := value];
      var ttl := TtlMap(data);
      if key in ttl {
        ttl := ttl - {key};
        data := WithTtlMap(data, ttl);
      }
      Persist();
    }

    /** `putWithTtl`: set the value expiring `ttlSeconds` from now; a non-positive ttl forgets the key. */
    method PutWithTtl(key: string, value: Value, ttlSeconds: int, now: int)
      requires Valid()
      modifies this`data, this`draws, handler
      ensures data == SessionData.PutWithTtl(old(data), key, value, ttlSeconds, now)
      ensures Wrote(1)
    {
      if ttlSeconds <= 0 {
        Forget(key);
        return;
      }
      data := data[key := value];
      var ttl := TtlMap(data);
      ttl := ttl[key := Int(now + ttlSeconds)];
      data := WithTtlMap(data, ttl);
      Persist();
    }

    /** `ttl`: seconds left for a key with a live expiry. */
    method Ttl(key: string, now: int) returns (r: Option<int>)
      requires Valid()
      modifies this`data, this`draws, handler
      ensures r == Remaining(old(data), key, now)
      ensures data == Purge(old(data), key, now)
      ensures Wrote(if Expired(old(data), key, now) then 1 else 0)
    {
      var purged := PurgeExpiredKey(key, now);
      if purged {
        Persist();
        return None;
      }
      var ttl := TtlMap(data);
      if key !in ttl {
        return None;
      }
      var remaining := IntCast(ttl[key]) - now;
      r := Some(if remaining > 0 then remaining else 0);
    }

    /** `expiresAt`: the absolute expiry of a key with a live expiry. */
    method ExpiresAt(key: string, now: int) returns (r: Option<int>)
      requires Valid()
      modifies this`data, this`draws, handler
      ensures r == ExpiryOf(old(data), key, now)
      ensures data == Purge(old(data), key, now)
      ensures Wrote(if Expired(old(data), key, now) then 1 else 0)
    {
      var purged := PurgeExpiredKey(key, now);
      if purged {
        Persist();
        return None;
      }
      var ttl := TtlMap(data);
      if key !in ttl {
        return None;
      }
      var expiresAt := IntCast(ttl[key]);
      r := if expiresAt > now then Some(expiresAt) else None;
    }

    /** `touch`: extend a present key's expiry; a non-positive ttl forgets it instead. */
    method Touch(key: string, ttlSeconds: int, now: int) returns (ok: bool)
      requires Valid()
      modifies this`data, this`draws, handler
      ensures ok <==> HasKey(old(data), key, now) && ttlSeconds > 0
      ensures data == if !HasKey(old(data), key, now) then Purge(old(data), key, now)
                      else if ttlSeconds <= 0 then SessionData.Forget(old(data), key)
                      else Refresh(old(data), key, ttlSeconds, now)
      ensures Wrote(if Expired(old(data), key, now) || HasKey(old(data), key, now) then 1 else 0)
    {
      var present := Has(key, now);
      if !present {
        return false;
      }
      if ttlSeconds <= 0 {
        Forget(key);
        return false;
      }
      var ttl := TtlMap(data);
      ttl := ttl[key := Int(now + ttlSeconds)];
      data := WithTtlMap(data, ttl);
      Persist();
      return true;
    }

    /** `touchAll`: after a sweep, give every visible key (with the prefix) the same new expiry. */
    method TouchAll(ttlSeconds: int, prefix: Option<string>, now: int) returns (updated: nat)
      requires Valid()
      modifies this`data, this`draws, handler
      ensures data == SessionData.TouchAll(Sweep(old(data), now), ttlSeconds, prefix, now)
      ensures updated == if ttlSeconds <= 0 then 0 else |KeysView(Sweep(old(data), now), prefix)|
      ensures Wrote(SweepWrites(old(data), now) + (if updated > 0 then 1 else 0))
    {
      ghost var storage0 := handler.storage;
      SweepExpired(now);
      if ttlSeconds <= 0 {
        return 0;
      }
      ghost var storage1 := handler.storage;
      updated := TouchSwept(ttlSeconds, prefix, now);
      if updated > 0 && storage1 != storage0 {
        Overwrite(storage0, id, storage1[id], handler.storage[id]);
      }
    }

    /** The part of `touchAll` after the sweep, for a positive ttl: one pass over the keys, one persist. */
    method TouchSwept(ttlSeconds: int, prefix: Option<string>, now: int) returns (updated: nat)
      requires Valid() && ttlSeconds > 0
      modifies this`data, this`draws, handler
      ensures data == SessionData.TouchAll(old(data), ttlSeconds, prefix, now)
      ensures updated == |KeysView(old(data), prefix)|
      ensures Wrote(if updated > 0 then 1 else 0)
    {
      var ttl;
      ttl, updated := ExtendExpiries(data, ttlSeconds, prefix, now);
      if updated > 0 {
        data := WithTtlMap(data, ttl);
        Persist();
      }
    }

    /** The loop of `touchAll`: every visible key (with the prefix) gets expiry `now + ttl`; the count of keys touched. */
    static method ExtendExpiries(d: Data, ttlSeconds: int, prefix: Option<string>, now: int)
      returns (ttl: map<string, Value>, updated: nat)
      ensures ttl == TtlMap(d) + Stamp(KeysView(d, prefix), Int(now + ttlSeconds))
      ensures updated == |KeysView(d, prefix)|
    {
      ghost var touched := KeysView(d, prefix);
      ghost var done: set<string> := {};
      var base := TtlMap(d);
      var expiry := Int(now + ttlSeconds);
      ttl := base;
      updated := 0;
      var pending := d.Keys;
      while pending != {}
        invariant pending <= d.Keys
        invariant done <= touched
        invariant forall k :: k in touched ==> (k in done <==> k !in pending)
        invariant ttl == base + Stamp(done, expiry)
        invariant updated == |done|
        decreases pending
      {
        var key :| key in pending;
        if Visible(key) && (prefix.None? || StartsWith(key, prefix.value)) {
          StampInsert(done, key, expiry);
          MergeUpdate(base, Stamp(done, expiry), key, expiry);
          done := done + {key};
          ttl := ttl[key := expiry];
          updated := updated + 1;
        }
        pending := pending - {key};
      }
      assert done == touched;
    }

    /** `forget`: remove the key and its expiry, persist. */
    method Forget(key: string)
      requires Valid()
      modifies this`data, this`draws, handler
      ensures data == SessionData.Forget(old(data), key)
      ensures Wrote(1)
    {
      data := data - {key};
      var ttl := TtlMap(data);
      if key in ttl {
        ttl := ttl - {key};
        data := WithTtlMap(data, ttl);
      }
      Persist();
    }

    /** `forgetMany`: remove all listed keys with a single persist; an empty list does nothing. */
    method ForgetMany(keys: seq<string>)
      requires Valid()
      modifies this`data, this`draws, handler
      ensures data == SessionData.ForgetMany(old(data), keys)
      ensures Wrote(if keys == [] then 0 else 1)
    {
      if keys == [] {
        return;
      }
      ghost var data0 := data;
      var ttl := TtlMap(data);
      for i := 0 to |keys|
        modifies this`data
        invariant data == data0 - set k | k in keys[..i]
        invariant ttl == TtlMap(data0) - set k | k in keys[..i]
      {
        assert keys[..i + 1] == keys[..i] + [keys[i]];
        data := data - {keys[i]};
        if keys[i] in ttl {
          ttl := ttl - {keys[i]};
        }
      }
      assert keys[..|keys|] == keys;
      data := WithTtlMap(data, ttl);
      Persist();
    }

    /** `pull`: read the value and forget the key; always persists exactly once. */
    method Pull(key: string, default: Value, now: int) returns (v: Value)
      requires Valid()
      modifies this`data, this`draws, handler
      ensures v == GetValue(old(data), key, default, now)
      ensures data == if Expired(old(data), key, now) then Purge(old(data), key, now) else SessionData.Forget(old(data), key)
      ensures Wrote(1)
    {
      var purged := PurgeExpiredKey(key, now);
      if purged {
        Persist();
        return default;
      }
      v := Get(key, default, now);
      Forget(key);
    }

    /** `increment`: add to the key's integer value (a missing or null value counts as 0). */
    method Increment(key: string, amount: int, now: int) returns (value: int)
      requires Valid()
      modifies this`data, this`draws, handler
      ensures (data, value) == Incremented(Purge(old(data), key, now), key, amount)
      ensures Wrote(if Expired(old(data), key, now) then 2 else 1)
    {
      ghost var storage0 := handler.storage;
      var purged := PurgeAndPersist(key, now);
      ghost var storage1 := handler.storage;
      var current := Coalesce(data, key, Int(0));
      value := IntCast(current) + amount;
      data := data[key := Int(value)];
      Persist();
      if purged {
        Overwrite(storage0, id, storage1[id], handler.storage[id]);
      }
    }

    /** `flash`: set the value and list the key in `__flash_new` for removal two requests later. */
    method Flash(key: string, value: Value)
      requires Valid()
      modifies this`data, this`draws, handler
      ensures data == SessionData.Flash(old(data), key, value)
      ensures Wrote(1)
    {
      data := data[key := value];
      var flash := Lookup(data, FLASH_NEW);
      if !IsArray(flash) {
        flash := List([]);
      }
      data := data[FLASH_NEW := AppendKey(flash, key)];
      Persist();
    }

    /** `destroy`: empty the data and delete the stored entry, without writing. */
    method Destroy()
      requires Valid()
      modifies this`data, handler`storage
      ensures data == map[]
      ensures handler.storage == old(handler.storage) - {id}
    {
      data := map[];
      var _ := handler.Destroy(id);
    }

    /** `forgetNamespace`: after a sweep, remove every key under `rtrim(prefix, '.') . '.'`, persisting once if any went. */
    method ForgetNamespace(prefix: string, now: int)
      requires Valid()
      modifies this`data, this`draws, handler
      ensures var swept := Sweep(old(data), now);
              && data == SessionData.ForgetNamespace(swept, prefix)
              && Wrote(SweepWrites(old(data), now) + (if InNamespace(swept, NamespacePrefix(prefix)) == {} then 0 else 1))
    {
      ghost var storage0 := handler.storage;
      SweepExpired(now);
      ghost var storage1 := handler.storage;
      ForgetSweptNamespace(prefix);
      if storage1 != storage0 && storage1 != handler.storage {
        Overwrite(storage0, id, storage1[id], handler.storage[id]);
      }
    }

    /** The part of `forgetNamespace` after the sweep: one pass over the keys, at most one persist. */
    method ForgetSweptNamespace(prefix: string)
      requires Valid()
      modifies this`data, this`draws, handler
      ensures data == SessionData.ForgetNamespace(old(data), prefix)
      ensures Wrote(if InNamespace(old(data), NamespacePrefix(prefix)) == {} then 0 else 1)
    {
      ghost var data0 := data;
      var ttl := TtlMap(data);
      var changed := false;
      var p := RTrim(prefix, {'.'}) + ".";
      ghost var gone := InNamespace(data0, p);
      ghost var removed: set<string> := {};
      var pending := data.Keys;
      while pending != {}
        modifies this`data
        invariant pending <= data0.Keys
        invariant removed == gone - pending
        invariant data == data0 - removed
        invariant ttl == TtlMap(data0) - removed
        invariant changed <==> removed != {}
        decreases pending
      {
        var key :| key in pending;
        if StartsWith(key, p) {
          data := data - {key};
          ttl := ttl - {key};
          changed := true;
          removed := removed + {key};
        }
        pending := pending - {key};
      }
      assert removed == gone;
      if changed {
        data := WithTtlMap(data, ttl);
        Persist();
      } else {
        assert data == data0;
      }
    }

    /** `rotateEncryptionKey`: install a new primary key (and previous keys) and re-persist under it. */
    method RotateEncryptionKey(newKey: string, previousKeys: seq<Value>, allowPlaintext: bool) returns (r: Outcome<SessionError>)
      requires Valid()
      modifies this`encryption, this`draws, handler
      ensures var config := Configure(prims, EncryptionOptions(Str(newKey), Some(previousKeys), Bool(allowPlaintext)));
              && (config.Failure? ==> r == Fail(config.error) && encryption == old(encryption) && Wrote(0))
              && (config.Success? ==> r.Pass? && encryption == config.value && Wrote(1))
    {
      var config := Configure(prims, EncryptionOptions(Str(newKey), Some(previousKeys), Bool(allowPlaintext)));
      if config.Failure? {
        return Fail(config.error);
      }
      encryption := config.value;
      Persist();
      return Pass;
    }
  }
}
