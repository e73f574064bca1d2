/**
 * Whole request cycles over real objects: a store persisting into an
 * in-memory handler, a second store opening the same id, scopes sharing a
 * store. Each scenario states what the next request observes.
 */
module Scenarios {
  import opened Php
  import opened Wrappers
  import opened Identity
  import opened Envelope
  import opened Json
  import opened Cookies
  import opened SessionData
  import opened ArrayHandler
  import opened SessionStore
  import opened Scope

  /** What `persist` stores, `start` in the next request loads back, whatever the encryption setting. */
  lemma SealedDataReloads(s: Store, d: Data, e: Encryption, draws: nat)
    requires WellBehaved(s.prims) && RoundTrips(s.codec) && EntropyWellFormed(s.entropy)
    ensures s.Sealed(d, e, draws) != ""
    ensures var plain := Decrypt(s.prims, e, s.Sealed(d, e, draws));
            plain == Success(s.codec.encode(d)) && s.codec.decode(plain.value) == Some(d)
  {
    var nonce := s.entropy(if draws == 0 then 0 else draws - 1, NONCE_BYTES);
    assert |nonce| == NONCE_BYTES;
    EncryptDecrypt(s.prims, e, s.codec.encode(d), nonce);
    assert s.codec.encode(d) != [];
    assert e.On? ==> StartsWith(s.Sealed(d, e, draws), PREFIX);
  }

  /** A value put in one request is read back in the next one, under the same id. */
  method RequestCycle(id: string, cookie: CookieConfig, e: Encryption, prims: Primitives, codec: Codec,
                      entropy: (nat, nat) -> string, key: string, value: Value, now: int) returns (r: Value)
    requires IsValidId(id) && KeysWellFormed(e) && EntropyWellFormed(entropy)
    requires WellBehaved(prims) && RoundTrips(codec)
    requires Visible(key)
    ensures r == value
  {
    var handler := new ArraySessionHandler();
    var first := new Store.Init(handler, id, cookie, e, prims, codec, entropy, 0);
    first.Put(key, value);
    ghost var saved := first.data;
    assert saved == map[key := value];
    SealedDataReloads(first, saved, e, first.draws);
    var second := new Store.Init(handler, id, cookie, e, prims, codec, entropy, first.draws);
    assert second.Stored() == first.Sealed(saved, e, first.draws);
    assert second.Sealed(saved, e, first.draws) == first.Sealed(saved, e, first.draws);
    var started := second.Start();
    FreshPutSurvivesStart(key, value, now);
    r := second.Get(key, Null, now);
  }

  /** A single plain entry survives the flash aging of `start` and reads back unchanged. */
  lemma FreshPutSurvivesStart(key: string, value: Value, now: int)
    requires Visible(key)
    ensures GetValue(AgeFlash(map[key := value]).0, key, Null, now) == value
  {
    var d := map[key := value];
    assert StartsWith(TTL_KEY, RESERVED_PREFIX) && StartsWith(FLASH_NEW, RESERVED_PREFIX) && StartsWith(FLASH_OLD, RESERVED_PREFIX);
    assert Lookup(d, FLASH_OLD) == Null;
    var aged := AgeFlash(d).0;
    assert aged == d[FLASH_OLD := List([])][FLASH_NEW := List([])];
    assert TtlMap(aged) == map[];
  }

  /** A key written with a ten-second ttl reads back one second before its expiry and is gone at it. */
  method TtlExpiry(id: string, cookie: CookieConfig, e: Encryption, prims: Primitives, codec: Codec,
                   entropy: (nat, nat) -> string, key: string, value: Value) returns (before: Value, after: Value)
    requires IsValidId(id) && KeysWellFormed(e) && EntropyWellFormed(entropy)
    requires key != TTL_KEY && value != Null
    ensures before == value && after == Null
  {
    var handler := new ArraySessionHandler();
    var s := new Store.Init(handler, id, cookie, e, prims, codec, entropy, 0);
    s.PutWithTtl(key, value, 10, 100);
    TtlWindow(map[], key, value, 10, 100, 109);
    ghost var written := s.data;
    assert Expired(written, key, 110);
    before := s.Get(key, Null, 109);
    assert s.data == written;
    after := s.Get(key, Null, 110);
  }

  /** Two scopes on one store: a write through `admin` is visible there and nowhere in `user`. */
  method ScopeIsolation(id: string, cookie: CookieConfig, e: Encryption, prims: Primitives, codec: Codec,
                        entropy: (nat, nat) -> string, now: int) returns (mine: Value, theirs: map<string, Value>)
    requires IsValidId(id) && KeysWellFormed(e) && EntropyWellFormed(entropy)
    ensures mine == Int(1) && theirs == map[]
  {
    var handler := new ArraySessionHandler();
    var s := new Store.Init(handler, id, cookie, e, prims, codec, entropy, 0);
    var admin := new SessionScope(s, "admin", ".");
    var user := new SessionScope(s, "user", ".");
    PlainScopePrefixes();
    admin.Put("x", Int(1));
    OneScopedEntry(now);
    theirs := user.All(now);
    mine := admin.Get("x", Null, now);
  }

  /** Neither name ends in the delimiter, so each prefix is the name plus a dot. */
  lemma PlainScopePrefixes()
    ensures ScopePrefix("admin", ".") == "admin." && ScopePrefix("user", ".") == "user."
  {
    assert Chars(".") == {'.'};
    assert RTrim("admin", {'.'}) == "admin" && RTrim("user", {'.'}) == "user";
  }

  /** After `admin.x` is put into an empty store, the `user` scope sees nothing and `admin` reads it back. */
  lemma OneScopedEntry(now: int)
    ensures var d := SessionData.Put(map[], "admin." + "x", Int(1));
            && Sweep(d, now) == d
            && ScopedAll(d, "user.") == map[]
            && GetValue(d, "admin." + "x", Null, now) == Int(1)
  {
    var key := "admin." + "x";
    assert key == "admin.x";
    assert key != TTL_KEY;
    assert SessionData.Put(map[], key, Int(1)) == map[key := Int(1)];
    assert !StartsWith(key, "user.") by { assert key[0] != "user."[0]; }
    assert TtlMap(map[key := Int(1)]) == map[];
    assert ExpiredKeys(map[key := Int(1)], now) == {};
    ScopedNamesOfOneKey(key, Int(1), "user.");
  }

  /** A store holding one key outside a scope shows that scope nothing. */
  lemma ScopedNamesOfOneKey(key: string, value: Value, p: string)
    requires !StartsWith(key, p)
    ensures ScopedAll(map[key := value], p) == map[]
  {
    forall s ensures s !in ScopedAll(map[key := value], p) {
      ScopedAllAt(map[key := value], p, s);
      assert StartsWith(p + s, p);
    }
  }
}
