/**
 * The session data map and the bookkeeping the store keeps inside it under
 * reserved keys: `__ttl` (key to absolute expiry time), `__flash_new` and
 * `__flash_old` (the two flash generations). Each function gives the new map
 * one store operation leaves behind; the store class is proved against them.
 */
module SessionData {
  import opened Php
  import opened Glob
  import opened Wrappers

  const TTL_KEY: string := "__ttl"
  const FLASH_NEW: string := "__flash_new"
  const FLASH_OLD: string := "__flash_old"
  /** Keys with this prefix never show up in enumeration or counting. */
  const RESERVED_PREFIX: string := "__"
  const REDACTED: string := "***"

  predicate Visible(key: string) {
    !StartsWith(key, RESERVED_PREFIX)
  }

  /** `getTtlMap`: the `__ttl` entry when it is a string-keyed array, otherwise empty. */
  function TtlMap(d: Data): map<string, Value> {
    if TTL_KEY in d && d[TTL_KEY].Assoc? then d[TTL_KEY].entries else map[]
  }

  /** `setTtlMap`: the TTL map becomes `ttl`, the `__ttl` entry disappears when `ttl` is empty, nothing else changes. */
  function WithTtlMap(d: Data, ttl: map<string, Value>): (r: Data)
    ensures TtlMap(r) == ttl
    ensures TTL_KEY in r <==> ttl != map[]
    ensures forall k :: k != TTL_KEY ==> (k in r <==> k in d) && (k in d ==> r[k] == d[k])
  {
    if ttl == map[] then d - {TTL_KEY} else d[TTL_KEY := Assoc(ttl)]
  }

  /** Every key that carries an expiry is also present in the data. */
  ghost predicate TtlKeysPresent(d: Data) {
    forall k :: k in TtlMap(d) ==> k in d
  }

  /** A key is expired once its recorded expiry is no later than `now`. */
  predicate Expired(d: Data, key: string, now: int) {
    key in TtlMap(d) && IntCast(TtlMap(d)[key]) <= now
  }

  /** `purgeExpiredKey`: an expired key leaves both the data and the TTL map; otherwise nothing changes. */
  function Purge(d: Data, key: string, now: int): (r: Data)
  {
    if Expired(d, key, now) then WithTtlMap(d - {key}, TtlMap(d) - {key}) else d
  }

  lemma PurgeRemovesOnlyExpiredKey(d: Data, key: string, now: int)
    ensures var r := Purge(d, key, now);
            !Expired(d, key, now) ==> r == d
    ensures var r := Purge(d, key, now);
            Expired(d, key, now) ==> key !in TtlMap(r) && TtlMap(r) == TtlMap(d) - {key}
    ensures var r := Purge(d, key, now);
            Expired(d, key, now) && key != TTL_KEY ==> key !in r
    ensures var r := Purge(d, key, now);
            forall k :: k != key && k != TTL_KEY ==> (k in r <==> k in d) && (k in d ==> r[k] == d[k])
  {
  }

  /** `get`: the default once the key has expired, and also for a missing key or a stored null (`??`). */
  function GetValue(d: Data, key: string, default: Value, now: int): (v: Value)
    ensures Expired(d, key, now) || key !in d || d[key] == Null ==> v == default
    ensures !Expired(d, key, now) && key in d && d[key] != Null ==> v == d[key]
  {
    if Expired(d, key, now) then default else Coalesce(d, key, default)
  }

  /** `has`: present and not expired; a stored null still counts as present. */
  predicate HasKey(d: Data, key: string, now: int) {
    !Expired(d, key, now) && key in d
  }

  /** `ttl`: the seconds left before expiry, or none when the key has no live expiry. */
  function Remaining(d: Data, key: string, now: int): (r: Option<int>)
    ensures r.Some? <==> key in TtlMap(d) && !Expired(d, key, now)
    ensures r.Some? ==> r.value > 0 && r.value == IntCast(TtlMap(d)[key]) - now
  {
    if Expired(d, key, now) || key !in TtlMap(d) then None
    else
      var remaining := IntCast(TtlMap(d)[key]) - now;
      Some(if remaining > 0 then remaining else 0)
  }

  /** `expiresAt`: the absolute expiry, or none when the key has no live expiry. */
  function ExpiryOf(d: Data, key: string, now: int): (r: Option<int>)
    ensures r.Some? <==> key in TtlMap(d) && !Expired(d, key, now)
    ensures r.Some? ==> r.value > now && r.value == IntCast(TtlMap(d)[key])
  {
    if Expired(d, key, now) || key !in TtlMap(d) then None
    else
      var expiresAt := IntCast(TtlMap(d)[key]);
      if expiresAt > now then Some(expiresAt) else None
  }

  /** `put`: the value is set and any expiry for the key is dropped. */
  function Put(d: Data, key: string, value: Value): (r: Data)
  {
    var d1 := d[key := value];
    var ttl := TtlMap(d1);
    if key in ttl then WithTtlMap(d1, ttl - {key}) else d1
  }

  lemma PutSetsValueAndDropsExpiry(d: Data, key: string, value: Value)
    ensures var r := Put(d, key, value);
            key != TTL_KEY ==> key in r && r[key] == value
    ensures var r := Put(d, key, value);
            key != TTL_KEY ==> TtlMap(r) == TtlMap(d) - {key}
    ensures var r := Put(d, key, value);
            forall k :: k != key && k != TTL_KEY ==> (k in r <==> k in d) && (k in d ==> r[k] == d[k])
  {
  }

  /** `forget`: the key leaves the data and, unless it is `__ttl` itself, the TTL map. */
  function Forget(d: Data, key: string): (r: Data)
  {
    var d1 := d - {key};
    var ttl := TtlMap(d1);
    if key in ttl then WithTtlMap(d1, ttl - {key}) else d1
  }

  lemma ForgetRemovesKeyAndExpiry(d: Data, key: string)
    ensures var r := Forget(d, key);
            key !in r
    ensures var r := Forget(d, key);
            key != TTL_KEY ==> TtlMap(r) == TtlMap(d) - {key}
    ensures var r := Forget(d, key);
            key == TTL_KEY ==> TtlMap(r) == map[]
    ensures var r := Forget(d, key);
            forall k :: k != key && k != TTL_KEY ==> (k in r <==> k in d) && (k in d ==> r[k] == d[k])
  {
  }

  /** `putWithTtl`: a non-positive ttl forgets the key; otherwise the value is set with expiry `now + ttl`. */
  function PutWithTtl(d: Data, key: string, value: Value, ttlSeconds: int, now: int): (r: Data)
  {
    if ttlSeconds <= 0 then Forget(d, key)
    else
      var d1 := d[key := value];
      WithTtlMap(d1, TtlMap(d1)[key := Int(now + ttlSeconds)])
  }

  lemma PutWithTtlSetsExpiry(d: Data, key: string, value: Value, ttlSeconds: int, now: int)
    ensures var r := PutWithTtl(d, key, value, ttlSeconds, now);
            ttlSeconds <= 0 ==> r == Forget(d, key)
    ensures var r := PutWithTtl(d, key, value, ttlSeconds, now);
            ttlSeconds > 0 && key != TTL_KEY ==> key in r && r[key] == value && TtlMap(r) == TtlMap(d)[key := Int(now + ttlSeconds)]
    ensures var r := PutWithTtl(d, key, value, ttlSeconds, now);
            forall k :: k != key && k != TTL_KEY ==> (k in r <==> k in d) && (k in d ==> r[k] == d[k])
  {
  }

  /** `touch` once the key is known to be present: the expiry is moved to `now + ttl`. */
  function Refresh(d: Data, key: string, ttlSeconds: int, now: int): (r: Data)
  {
    WithTtlMap(d, TtlMap(d)[key := Int(now + ttlSeconds)])
  }

  lemma RefreshMovesExpiry(d: Data, key: string, ttlSeconds: int, now: int)
    ensures var r := Refresh(d, key, ttlSeconds, now);
            TtlMap(r) == TtlMap(d)[key := Int(now + ttlSeconds)]
    ensures var r := Refresh(d, key, ttlSeconds, now);
            forall k :: k != TTL_KEY ==> (k in r <==> k in d) && (k in d ==> r[k] == d[k])
  {
  }

  /** `forgetMany`: every listed key leaves data and TTL map; an empty list changes nothing. */
  function ForgetMany(d: Data, keys: seq<string>): (r: Data)
  {
    if keys == [] then d
    else
      var gone := set k | k in keys;
      WithTtlMap(d - gone, TtlMap(d) - gone)
  }

  lemma ForgetManyRemovesListedKeys(d: Data, keys: seq<string>)
    ensures var r := ForgetMany(d, keys);
            keys == [] ==> r == d
    ensures var r := ForgetMany(d, keys);
            keys != [] ==> TtlMap(r) == TtlMap(d) - set k | k in keys
    ensures var r := ForgetMany(d, keys);
            forall k :: k in keys && k != TTL_KEY ==> k !in r
    ensures var r := ForgetMany(d, keys);
            forall k :: k !in keys && k != TTL_KEY ==> (k in r <==> k in d) && (k in d ==> r[k] == d[k])
  {
  }

  /** `forgetNamespace` normalises its argument with a hard-coded `.`: `rtrim($prefix, '.') . '.'`. */
  function NamespacePrefix(prefix: string): (p: string)
    ensures p != [] && p[|p| - 1] == '.'
  {
    RTrim(prefix, {'.'}) + "."
  }

  /** The keys `forgetNamespace` removes. */
  function InNamespace(d: Data, p: string): set<string> {
    set k | k in d && StartsWith(k, p)
  }

  /** `forgetNamespace` once expired keys are swept: every key starting with the normalised prefix goes. */
  function ForgetNamespace(d: Data, prefix: string): (r: Data)
  {
    var p := NamespacePrefix(prefix);
    var gone := InNamespace(d, p);
    if gone == {} then d else WithTtlMap(d - gone, TtlMap(d) - gone)
  }

  lemma ForgetNamespaceRemovesPrefixedKeys(d: Data, prefix: string)
    ensures var r := ForgetNamespace(d, prefix);
            var p := NamespacePrefix(prefix);
            && (forall k :: k != TTL_KEY ==> (k in r <==> k in d && !StartsWith(k, p)))
            && (forall k :: k in r && k != TTL_KEY ==> r[k] == d[k])
            && TtlMap(r) == TtlMap(d) - InNamespace(d, p)
  {
    var p := NamespacePrefix(prefix);
    assert '.' !in TTL_KEY;
    if InNamespace(d, p) == {} {
      assert forall k :: k in d && StartsWith(k, p) ==> k in InNamespace(d, p);
    }
  }

  /** The keys whose recorded expiry is no later than `now`. */
  function ExpiredKeys(d: Data, now: int): (e: set<string>)
    ensures forall k :: k in e <==> Expired(d, k, now)
  {
    set k | k in TtlMap(d) && IntCast(TtlMap(d)[k]) <= now
  }

  /** `sweepExpired`: every expired key leaves data and TTL map, nothing else changes. */
  function Sweep(d: Data, now: int): (r: Data)
  {
    var gone := ExpiredKeys(d, now);
    if gone == {} then d else WithTtlMap(d - gone, TtlMap(d) - gone)
  }

  lemma SweepRemovesExactlyExpiredKeys(d: Data, now: int)
    ensures var r := Sweep(d, now);
            ExpiredKeys(d, now) == {} ==> r == d
    ensures var r := Sweep(d, now);
            forall k :: k != TTL_KEY ==> (k in r <==> k in d && !Expired(d, k, now))
    ensures var r := Sweep(d, now);
            forall k :: k in r && k != TTL_KEY ==> r[k] == d[k]
    ensures var r := Sweep(d, now);
            TtlMap(r) == map k | k in TtlMap(d) && !Expired(d, k, now) :: TtlMap(d)[k]
    ensures var r := Sweep(d, now);
            ExpiredKeys(d, now) != {} ==> (TTL_KEY in r <==> TtlMap(r) != map[])
  {
  }

  /** The keys `keys($prefix)` reports: visible, and starting with the prefix when one is given. */
  function KeysView(d: Data, prefix: Option<string>): set<string> {
    set k | k in d && Visible(k) && (prefix.None? || StartsWith(k, prefix.value))
  }

  /** The keys `keysMatch($pattern)` reports. */
  function MatchingKeys(d: Data, pattern: string): set<string> {
    set k | k in d && Visible(k) && MatchesPattern(k, pattern)
  }

  /** The same value for every key of a set. */
  function Stamp(keys: set<string>, v: Value): map<string, Value> {
    map k | k in keys :: v
  }

  lemma StampInsert(keys: set<string>, key: string, v: Value)
    ensures Stamp(keys + {key}, v) == Stamp(keys, v)[key := v]
  {
  }

  lemma MergeUpdate(a: map<string, Value>, b: map<string, Value>, k: string, v: Value)
    ensures (a + b)[k := v] == a + b[k := v]
  {
  }

  /** `touchAll` once expired keys are swept: every visible key (with the prefix) gets expiry `now + ttl`. */
  function TouchAll(d: Data, ttlSeconds: int, prefix: Option<string>, now: int): (r: Data)
  {
    var touched := KeysView(d, prefix);
    if ttlSeconds <= 0 || touched == {} then d
    else WithTtlMap(d, TtlMap(d) + Stamp(touched, Int(now + ttlSeconds)))
  }

  lemma TouchAllExtendsVisibleKeys(d: Data, ttlSeconds: int, prefix: Option<string>, now: int)
    ensures var r := TouchAll(d, ttlSeconds, prefix, now);
            ttlSeconds <= 0 || KeysView(d, prefix) == {} ==> r == d
    ensures var r := TouchAll(d, ttlSeconds, prefix, now);
            ttlSeconds > 0 ==>
              forall k :: k in TtlMap(r) <==> k in TtlMap(d) || k in KeysView(d, prefix)
    ensures var r := TouchAll(d, ttlSeconds, prefix, now);
            ttlSeconds > 0 ==>
              forall k :: k in TtlMap(r) ==> TtlMap(r)[k] == if k in KeysView(d, prefix) then Int(now + ttlSeconds) else TtlMap(d)[k]
    ensures var r := TouchAll(d, ttlSeconds, prefix, now);
            forall k :: k != TTL_KEY ==> (k in r <==> k in d) && (k in d ==> r[k] == d[k])
  {
  }

  /** A key written with a positive ttl is readable strictly before `now + ttl` and gone from that second on. */
  lemma TtlWindow(d: Data, key: string, value: Value, ttlSeconds: int, now: int, later: int)
    requires key != TTL_KEY && ttlSeconds > 0
    ensures var r := PutWithTtl(d, key, value, ttlSeconds, now);
            && (HasKey(r, key, later) <==> later < now + ttlSeconds)
            && (later < now + ttlSeconds && value != Null ==> GetValue(r, key, Null, later) == value)
            && (later < now + ttlSeconds ==> Remaining(r, key, later) == Some(now + ttlSeconds - later))
  {
  }

  /** An expired key is invisible to every read, whatever is still stored for it. */
  lemma ExpiredKeyIsUnreadable(d: Data, key: string, default: Value, now: int)
    requires Expired(d, key, now)
    ensures GetValue(d, key, default, now) == default
    ensures !HasKey(d, key, now)
    ensures Remaining(d, key, now) == None && ExpiryOf(d, key, now) == None
  {
  }

  /** After a sweep nothing is expired, so sweeping again at the same time changes nothing. */
  lemma SweepIdempotent(d: Data, now: int)
    ensures ExpiredKeys(Sweep(d, now), now) == {}
    ensures Sweep(Sweep(d, now), now) == Sweep(d, now)
  {
    var r := Sweep(d, now);
    forall k | k in TtlMap(r) ensures !Expired(r, k, now) {
      assert TtlMap(r)[k] == TtlMap(d)[k];
    }
  }

  /** A sweep and a lazy purge agree: the sweep removes exactly the keys a purge would. */
  lemma SweepAgreesWithPurge(d: Data, key: string, now: int)
    requires key != TTL_KEY
    ensures key in Sweep(d, now) <==> key in Purge(d, key, now)
  {
  }

  /** The single-key operations keep every TTL entry backed by a data entry. */
  lemma SingleKeyOperationsKeepTtlKeysPresent(d: Data, key: string, value: Value, ttlSeconds: int, amount: int, now: int)
    requires TtlKeysPresent(d) && key != TTL_KEY
    ensures TtlKeysPresent(Put(d, key, value))
    ensures TtlKeysPresent(PutWithTtl(d, key, value, ttlSeconds, now))
    ensures TtlKeysPresent(Forget(d, key))
    ensures TtlKeysPresent(Purge(d, key, now))
    ensures TtlKeysPresent(Incremented(Purge(d, key, now), key, amount).0)
    ensures TtlKeysPresent(Flash(d, key, value))
  {
  }

  /** The batch operations keep every TTL entry backed by a data entry. */
  lemma BatchOperationsKeepTtlKeysPresent(d: Data, keys: seq<string>, prefix: string, ttlSeconds: int, scope: Option<string>, now: int)
    requires TtlKeysPresent(d)
    ensures TtlKeysPresent(ForgetMany(d, keys))
    ensures TtlKeysPresent(ForgetNamespace(d, prefix))
    ensures TtlKeysPresent(Sweep(d, now))
    ensures TtlKeysPresent(TouchAll(d, ttlSeconds, scope, now))
  {
  }

  /** `increment` after the lazy purge: a missing, null or non-numeric value counts as its `(int)` cast. */
  function Incremented(d: Data, key: string, amount: int): (r: (Data, int))
  {
    var value := IntCast(Lookup(d, key)) + amount;
    (d[key := Int(value)], value)
  }

  lemma IncrementAddsToIntValue(d: Data, key: string, amount: int)
    ensures var r := Incremented(d, key, amount);
            r.1 == IntCast(Lookup(d, key)) + amount
    ensures var r := Incremented(d, key, amount);
            key in r.0 && r.0[key] == Int(r.1)
    ensures var r := Incremented(d, key, amount);
            forall k :: k != key ==> (k in r.0 <==> k in d) && (k in d ==> r.0[k] == d[k])
  {
  }

  /** `$this->data[FLASH_NEW] ?? []`, read as the empty list when it is not an array. */
  function FlashNew(d: Data): (r: Value)
    ensures IsArray(r)
  {
    var v := Lookup(d, FLASH_NEW);
    if IsArray(v) then v else List([])
  }

  /**
   * `if (!in_array($key, $flash, true)) $flash[] = $key;` on an array: a list
   * grows at its end; a string-keyed array keeps its entries and takes the key
   * under the least unused integer index.
   */
  function AppendKey(v: Value, key: string): (r: Value)
    requires IsArray(v)
    ensures IsArray(r) && FlashedKeys(r) == FlashedKeys(v) + {key}
  {
    if v.List? then
      if Str(key) in v.items then v
      else
        var r := List(v.items + [Str(key)]);
        assert FlashedKeys(r) == FlashedKeys(v) + {key} by {
          forall k ensures k in FlashedKeys(r) <==> k in FlashedKeys(v) + {key} {
            if k in FlashedKeys(r) && k != key {
              var x :| x in v.items + [Str(key)] && x.Str? && x.s == k;
              assert x in v.items;
            }
          }
        }
        r
    else
      if Str(key) in v.entries.Values then
        assert key in FlashedKeys(v);
        v
      else
        var index := Decimal(NextIndex(v.entries.Keys));
        var r := Assoc(v.entries[index := Str(key)]);
        assert FlashedKeys(r) == FlashedKeys(v) + {key} by {
          assert index !in v.entries;
          forall x ensures x in r.entries.Values <==> x in v.entries.Values + {Str(key)} {
            if x in v.entries.Values {
              var k :| k in v.entries && v.entries[k] == x;
              assert r.entries[k] == x;
            }
            if x in r.entries.Values && x != Str(key) {
              var k :| k in r.entries && r.entries[k] == x;
              assert k != index && v.entries[k] == x;
            }
            if x == Str(key) {
              assert r.entries[index] == x;
            }
          }
        }
        r
  }

  /** `flash`: the value is set and the key appended to `__flash_new` unless already listed. */
  function Flash(d: Data, key: string, value: Value): (r: Data)
  {
    var d1 := d[key := value];
    d1[FLASH_NEW := AppendKey(FlashNew(d1), key)]
  }

  /**
   * `flash` sets the value and lists the key in `__flash_new`: a list gains the
   * key at its end unless it already holds it; a string-keyed array keeps every
   * entry and gains one more entry, the key, unless it already holds it; any
   * other value there is dropped for a one-element list. Nothing else changes.
   */
  lemma FlashSetsValueAndListsKey(d: Data, key: string, value: Value)
    ensures var r := Flash(d, key, value);
            key != FLASH_NEW ==> key in r && r[key] == value
    ensures var r := Flash(d, key, value);
            FLASH_NEW in r && IsArray(r[FLASH_NEW]) && key in FlashedKeys(r[FLASH_NEW])
    ensures var r := Flash(d, key, value);
            FlashedKeys(r[FLASH_NEW]) == FlashedKeys(FlashNew(d[key := value])) + {key}
    ensures var r := Flash(d, key, value);
            var before := FlashNew(d[key := value]);
            before.List? ==>
              r[FLASH_NEW].List? &&
              (if Str(key) in before.items then r[FLASH_NEW] == before
               else r[FLASH_NEW].items == before.items + [Str(key)])
    ensures var r := Flash(d, key, value);
            var before := FlashNew(d[key := value]);
            before.Assoc? ==>
              r[FLASH_NEW].Assoc? &&
              (forall k :: k in before.entries ==> k in r[FLASH_NEW].entries && r[FLASH_NEW].entries[k] == before.entries[k]) &&
              r[FLASH_NEW].entries.Values == before.entries.Values + {Str(key)} &&
              |r[FLASH_NEW].entries| == if Str(key) in before.entries.Values then |before.entries| else |before.entries| + 1
    ensures var r := Flash(d, key, value);
            forall k :: k != key && k != FLASH_NEW ==> (k in r <==> k in d) && (k in d ==> r[k] == d[k])
  {
  }

  predicate NoDuplicates<T(==)>(s: seq<T>) {
    forall i, j :: 0 <= i < j < |s| ==> s[i] != s[j]
  }

  /** A duplicate-free list has as many elements as the set of its elements. */
  lemma {:induction false} DistinctCardinality<T>(s: seq<T>)
    requires NoDuplicates(s)
    ensures |set x | x in s| == |s|
  {
    if s != [] {
      assert NoDuplicates(s[1..]) by {
        forall i, j | 0 <= i < j < |s[1..]| ensures s[1..][i] != s[1..][j] {
          assert s[1..][i] == s[i + 1] && s[1..][j] == s[j + 1];
        }
      }
      DistinctCardinality(s[1..]);
      assert (set x | x in s) == (set x | x in s[1..]) + {s[0]};
      assert s[0] !in (set x | x in s[1..]);
    }
  }

  /** An array that names no key twice: a duplicate-free list, or a string-keyed array with distinct values. */
  predicate ListsOnce(v: Value) {
    match v
    case List(items) => NoDuplicates(items)
    case Assoc(entries) => forall a, b :: a in entries && b in entries && a != b ==> entries[a] != entries[b]
    case _ => true
  }

  /** `flash` lists a key at most once: a `__flash_new` naming no key twice stays so. */
  lemma FlashListsKeyOnce(d: Data, key: string, value: Value)
    requires key != FLASH_NEW
    requires ListsOnce(FlashNew(d))
    ensures ListsOnce(Flash(d, key, value)[FLASH_NEW])
  {
    var d1 := d[key := value];
    assert FlashNew(d1) == FlashNew(d);
  }

  /** The keys a flash list names: its string entries (list items, or values of a string-keyed array). */
  function FlashedKeys(v: Value): set<string> {
    match v
    case List(items) => set x | x in items && x.Str? :: x.s
    case Assoc(entries) => set x | x in entries.Values && x.Str? :: x.s
    case _ => {}
  }

  /**
   * `ageFlashData`: drop every key named in `__flash_old`, move `__flash_new` to
   * `__flash_old` and empty `__flash_new`. The flag says whether anything changed
   * (and so whether the store persists).
   */
  function AgeFlash(d: Data): (r: (Data, bool))
  {
    var removed := FlashedKeys(Lookup(d, FLASH_OLD)) * d.Keys;
    var d1 := d - removed;
    var next := Lookup(d1, FLASH_NEW);
    var next' := if IsArray(next) then next else List([]);
    var moved := !Identical(Lookup(d1, FLASH_OLD), next');
    var d2 := if moved then d1[FLASH_OLD := next'] else d1;
    var cleared := !Identical(Lookup(d2, FLASH_NEW), List([]));
    var d3 := if cleared then d2[FLASH_NEW := List([])] else d2;
    (d3, removed != {} || moved || cleared)
  }

  lemma AgeFlashDropsOldAndShifts(d: Data)
    ensures var r := AgeFlash(d);
            var removed := FlashedKeys(Lookup(d, FLASH_OLD)) * d.Keys;
            forall k :: k != FLASH_OLD && k != FLASH_NEW ==>
              (k in r.0 <==> k in d && k !in removed) && (k in r.0 ==> r.0[k] == d[k])
    ensures var r := AgeFlash(d);
            FLASH_NEW in r.0 && IsEmptyArray(r.0[FLASH_NEW])
    ensures var r := AgeFlash(d);
            FLASH_OLD in r.0
    ensures var r := AgeFlash(d);
            !r.1 ==> r.0 == d
  {
  }

  /** The new `__flash_old` after aging: the previous `__flash_new`, or the empty list if that was no array. */
  lemma AgeFlashMovesNewToOld(d: Data)
    requires FLASH_NEW !in FlashedKeys(Lookup(d, FLASH_OLD))
    ensures var next := Lookup(d, FLASH_NEW);
            Identical(AgeFlash(d).0[FLASH_OLD], if IsArray(next) then next else List([]))
  {
  }

  /**
   * Flash lifecycle: a value flashed now survives the next aging (one `start()`)
   * and is gone after the one after that, provided the key was not already
   * pending removal in `__flash_old` (and `__flash_old` does not name
   * `__flash_new` itself).
   */
  lemma FlashLifecycle(d: Data, key: string, value: Value)
    requires key != FLASH_NEW && key != FLASH_OLD
    requires key !in FlashedKeys(Lookup(d, FLASH_OLD)) && FLASH_NEW !in FlashedKeys(Lookup(d, FLASH_OLD))
    ensures var once := AgeFlash(Flash(d, key, value)).0;
            key in once && once[key] == value && key !in AgeFlash(once).0
  {
    var f := Flash(d, key, value);
    assert Lookup(f, FLASH_OLD) == Lookup(d, FLASH_OLD);
    var once := AgeFlash(f).0;
    assert Identical(once[FLASH_OLD], f[FLASH_NEW]) by {
      AgeFlashMovesNewToOld(f);
    }
    assert key in FlashedKeys(once[FLASH_OLD]) by {
      FlashSetsValueAndListsKey(d, key, value);
    }
  }

  /**
   * Flashing a key again while it is still listed in `__flash_old` loses the new
   * value at the very next aging: the key is removed although it was just flashed.
   */
  lemma ReflashedKeyIsLost(d: Data, key: string, value: Value)
    requires key != FLASH_NEW && key != FLASH_OLD
    requires key in FlashedKeys(Lookup(d, FLASH_OLD))
    ensures key !in AgeFlash(Flash(d, key, value)).0
  {
    var f := Flash(d, key, value);
    assert Lookup(f, FLASH_OLD) == Lookup(d, FLASH_OLD);
  }

  /** Flash aging removes data keys but keeps their `__ttl` entries, so the TTL invariant can break at `start()`. */
  lemma AgingCanOrphanTtlEntries()
    ensures var d := map["a" := Str("x"), FLASH_OLD := List([Str("a")]), TTL_KEY := Assoc(map["a" := Int(100)])];
            TtlKeysPresent(d) && !TtlKeysPresent(AgeFlash(d).0)
  {
    var d := map["a" := Str("x"), FLASH_OLD := List([Str("a")]), TTL_KEY := Assoc(map["a" := Int(100)])];
    assert "a" in FlashedKeys(Lookup(d, FLASH_OLD));
    assert TtlMap(AgeFlash(d).0) == TtlMap(d);
    assert "a" in TtlMap(d);
  }

  /** `dump`'s redaction test: listed explicitly, or matching one of the patterns. */
  predicate IsRedacted(key: string, redactKeys: seq<string>, patterns: seq<string>) {
    key in redactKeys || exists i :: 0 <= i < |patterns| && MatchesPattern(key, patterns[i])
  }

  /** The redaction step of `dump`: same keys, redacted values replaced by `***`, the rest untouched. */
  function Redact(m: Data, redactKeys: seq<string>, patterns: seq<string>): (r: Data)
  {
    map k | k in m :: if IsRedacted(k, redactKeys, patterns) then Str(REDACTED) else m[k]
  }

  lemma RedactMasksMatchingKeys(m: Data, redactKeys: seq<string>, patterns: seq<string>)
    ensures var r := Redact(m, redactKeys, patterns);
            r.Keys == m.Keys
    ensures var r := Redact(m, redactKeys, patterns);
            forall k :: k in m && IsRedacted(k, redactKeys, patterns) ==> r[k] == Str(REDACTED)
    ensures var r := Redact(m, redactKeys, patterns);
            forall k :: k in m && !IsRedacted(k, redactKeys, patterns) ==> r[k] == m[k]
  {
  }

  /** `dump` once expired keys are swept: the three bookkeeping entries are removed, then values are redacted. */
  function Dump(d: Data, redactKeys: seq<string>, patterns: seq<string>): (r: Data)
  {
    Redact(d - {TTL_KEY, FLASH_NEW, FLASH_OLD}, redactKeys, patterns)
  }

  lemma DumpHidesBookkeeping(d: Data, redactKeys: seq<string>, patterns: seq<string>)
    ensures var r := Dump(d, redactKeys, patterns);
            r.Keys == d.Keys - {TTL_KEY, FLASH_NEW, FLASH_OLD}
  {
  }
}
