/**
 * `SessionScope`: a namespaced view over one Store. Every single-key operation
 * forwards `prefix . key`; the enumerations keep the visible store keys that
 * start with the prefix and strip it. The prefix is the namespace with its
 * trailing delimiter characters trimmed and one delimiter appended.
 */
module Scope {
  import opened Php
  import opened Wrappers
  import opened Glob
  import opened SessionData
  import opened SessionStore

  /** The characters of a string, as `rtrim` reads its character list. */
  function Chars(s: string): set<char> {
    set c | c in s
  }

  /** `rtrim($namespace, $delimiter) . $delimiter`. */
  function ScopePrefix(namespace: string, delimiter: string): string
  {
    RTrim(namespace, Chars(delimiter)) + delimiter
  }

  /** `substr($key, strlen($prefix))`: the key without its first `|p|` characters, or "" when it is shorter. */
  function Strip(key: string, p: string): (r: string)
    ensures StartsWith(key, p) ==> key == p + r
  {
    if |p| <= |key| then key[|p|..] else ""
  }

  /** The names `keys()` reports: the visible store keys under the prefix, with the prefix stripped. */
  function ScopedKeys(d: Data, p: string): set<string> {
    set k | k in KeysView(d, Some(p)) :: Strip(k, p)
  }

  /** What `all()` returns: each scoped name with the value stored under the prefixed key. */
  function ScopedAll(d: Data, p: string): map<string, Value> {
    map s | s in ScopedKeys(d, p) :: Lookup(d, p + s)
  }

  /** The keys `forgetMany` hands to the store: each key with the prefix in front. */
  function Prefixed(p: string, keys: seq<string>): (r: seq<string>)
    ensures |r| == |keys|
    ensures forall i :: 0 <= i < |keys| ==> r[i] == p + keys[i]
  {
    if keys == [] then [] else [p + keys[0]] + Prefixed(p, keys[1..])
  }

  /** The list `keys()` and `keysMatch()` build from the store's answer. */
  function Stripped(keys: seq<string>, p: string): (r: seq<string>)
  {
    if keys == [] then [] else [Strip(keys[0], p)] + Stripped(keys[1..], p)
  }

  // ---------------------------------------------------------------------------
  // The prefix

  /** Trimming a string extended by trimmable characters gives the trim of the string. */
  lemma {:induction false} RTrimIgnoresTrimmableTail(s: string, t: string, chars: set<char>)
    requires forall i :: 0 <= i < |t| ==> t[i] in chars
    ensures RTrim(s + t, chars) == RTrim(s, chars)
  {
    if t != [] {
      var u := t[..|t| - 1];
      assert s + t == (s + u) + [t[|t| - 1]];
      assert (s + t)[..|s + t| - 1] == s + u;
      assert (s + t)[|s + t| - 1] == t[|t| - 1] && t[|t| - 1] in chars;
      assert RTrim(s + t, chars) == RTrim(s + u, chars);
      RTrimIgnoresTrimmableTail(s, u, chars);
    } else {
      assert s + t == s;
    }
  }

  /** `"admin"` and `"admin."` (any namespace with the delimiter already appended) name the same scope. */
  lemma TrailingDelimiterIsIgnored(namespace: string, delimiter: string)
    ensures ScopePrefix(namespace + delimiter, delimiter) == ScopePrefix(namespace, delimiter)
  {
    RTrimIgnoresTrimmableTail(namespace, delimiter, Chars(delimiter));
  }

  /** With the default `.` delimiter the store's namespace normalisation leaves a scope prefix unchanged. */
  lemma DotScopeIsItsOwnNamespace(namespace: string)
    ensures NamespacePrefix(ScopePrefix(namespace, ".")) == ScopePrefix(namespace, ".")
  {
    var t := RTrim(namespace, {'.'});
    assert Chars(".") == {'.'};
    RTrimIgnoresTrimmableTail(t, ".", {'.'});
    assert RTrim(t, {'.'}) == t;
  }

  /** With another delimiter the store appends a `.` of its own: `forgetNamespace` on an `admin:` scope misses `admin:x`. */
  lemma ColonScopeIsNotCleared()
    ensures var p := ScopePrefix("admin", ":");
            var d := map["admin:x" := Int(1)];
            p == "admin:" && "admin:x" in ForgetNamespace(d, p)
  {
    var p := ScopePrefix("admin", ":");
    assert RTrim("admin", Chars(":")) == "admin";
    assert p == "admin:";
    assert RTrim(p, {'.'}) == "admin:";
    assert NamespacePrefix(p) == "admin:.";
    var d := map["admin:x" := Int(1)];
    assert !StartsWith("admin:x", "admin:.") by {
      assert "admin:x"[..7] != "admin:.";
    }
    assert InNamespace(d, NamespacePrefix(p)) == {};
  }

  // ---------------------------------------------------------------------------
  // The views

  /** A name is in the scope exactly when the prefixed key is a visible store key. */
  lemma ScopedKeysAt(d: Data, p: string, s: string)
    ensures s in ScopedKeys(d, p) <==> p + s in d && Visible(p + s)
  {
    assert StartsWith(p + s, p) && Strip(p + s, p) == s;
    if s in ScopedKeys(d, p) {
      var k :| k in KeysView(d, Some(p)) && Strip(k, p) == s;
      assert k == p + s;
    } else {
      assert p + s !in KeysView(d, Some(p));
    }
  }

  /** `all()`: a name is present exactly when its prefixed key is a visible store key, and carries that key's value. */
  lemma ScopedAllAt(d: Data, p: string, s: string)
    ensures s in ScopedAll(d, p) <==> p + s in d && Visible(p + s)
    ensures s in ScopedAll(d, p) ==> ScopedAll(d, p)[s] == d[p + s]
  {
    ScopedKeysAt(d, p, s);
  }

  /** Stripping the prefix loses nothing: the scope has as many names as the store has keys under it. */
  lemma ScopedKeysCardinality(d: Data, p: string)
    ensures |ScopedKeys(d, p)| == |KeysView(d, Some(p))|
  {
    var view := KeysView(d, Some(p));
    var names := ScopedKeys(d, p);
    var back := set s | s in names :: p + s;
    forall k | k in view ensures k in back {
      assert k == p + Strip(k, p);
    }
    forall k | k in back ensures k in view {
      var s :| s in names && k == p + s;
      ScopedKeysAt(d, p, s);
    }
    assert back == view;
    PrefixingIsInjective(names, p);
  }

  /** Putting the same prefix in front of every element of a set keeps its size. */
  lemma {:induction false} PrefixingIsInjective(names: set<string>, p: string)
    ensures |set s | s in names :: p + s| == |names|
    decreases names
  {
    if names != {} {
      var x :| x in names;
      var rest := names - {x};
      PrefixingIsInjective(rest, p);
      var restImage := set s | s in rest :: p + s;
      var image := set s | s in names :: p + s;
      assert image == restImage + {p + x};
      forall y | y in rest ensures p + y != p + x {
        assert (p + y)[|p|..] == y && (p + x)[|p|..] == x;
      }
    }
  }

  /** Neither prefix starts the other: no key can start with both. */
  lemma {:induction false} UnrelatedPrefixes(p1: string, p2: string, k: string)
    requires !StartsWith(p1, p2) && !StartsWith(p2, p1)
    ensures !(StartsWith(k, p1) && StartsWith(k, p2))
  {
    if |p1| <= |p2| {
      assert StartsWith(k, p2) ==> k[..|p1|] == p2[..|p1|];
    } else {
      assert StartsWith(k, p1) ==> k[..|p2|] == p1[..|p2|];
    }
  }

  /** Two scopes whose prefixes are unrelated see disjoint sets of store keys. */
  lemma ScopesSeeDisjointKeys(d: Data, p1: string, p2: string)
    requires !StartsWith(p1, p2) && !StartsWith(p2, p1)
    ensures KeysView(d, Some(p1)) * KeysView(d, Some(p2)) == {}
  {
    forall k | k in KeysView(d, Some(p1)) ensures k !in KeysView(d, Some(p2)) {
      UnrelatedPrefixes(p1, p2, k);
    }
  }

  /** A write through one scope leaves the view of an unrelated scope unchanged. */
  lemma PutIsInvisibleToOtherScopes(d: Data, p1: string, p2: string, key: string, value: Value)
    requires !StartsWith(p1, p2) && !StartsWith(p2, p1)
    ensures ScopedAll(SessionData.Put(d, p1 + key, value), p2) == ScopedAll(d, p2)
  {
    var r := SessionData.Put(d, p1 + key, value);
    PutSetsValueAndDropsExpiry(d, p1 + key, value);
    forall s | true
      ensures s in ScopedAll(r, p2) <==> s in ScopedAll(d, p2)
      ensures s in ScopedAll(d, p2) ==> ScopedAll(r, p2)[s] == ScopedAll(d, p2)[s]
    {
      ScopedAllAt(r, p2, s);
      ScopedAllAt(d, p2, s);
      assert StartsWith(p1 + key, p1) && StartsWith(p2 + s, p2);
      UnrelatedPrefixes(p1, p2, p2 + s);
      assert p2 + s != TTL_KEY || !Visible(p2 + s);
    }
  }

  /** A key put through the scope reads back through the scope, under its own name. */
  lemma ScopedPutThenRead(d: Data, p: string, key: string, value: Value, default: Value, now: int)
    requires Visible(p + key)
    ensures var r := SessionData.Put(d, p + key, value);
            && GetValue(r, p + key, default, now) == (if value == Null then default else value)
            && key in ScopedAll(r, p) && ScopedAll(r, p)[key] == value
  {
    var r := SessionData.Put(d, p + key, value);
    assert p + key != TTL_KEY by {
      assert StartsWith(TTL_KEY, RESERVED_PREFIX);
    }
    PutSetsValueAndDropsExpiry(d, p + key, value);
    ScopedAllAt(r, p, key);
  }

  /** `forgetMany` through the scope removes exactly the listed names from the scope's view. */
  lemma ScopedForgetMany(d: Data, p: string, keys: seq<string>)
    ensures var r := SessionData.ForgetMany(d, Prefixed(p, keys));
            forall s :: s in ScopedAll(r, p) <==> s in ScopedAll(d, p) && s !in keys
  {
    forall s ensures s in ScopedAll(SessionData.ForgetMany(d, Prefixed(p, keys)), p) <==> s in ScopedAll(d, p) && s !in keys {
      ScopedForgetManyAt(d, p, keys, s);
    }
  }

  lemma ScopedForgetManyAt(d: Data, p: string, keys: seq<string>, s: string)
    ensures s in ScopedAll(SessionData.ForgetMany(d, Prefixed(p, keys)), p) <==> s in ScopedAll(d, p) && s !in keys
  {
    var r := SessionData.ForgetMany(d, Prefixed(p, keys));
    ScopedAllAt(r, p, s);
    ScopedAllAt(d, p, s);
    PrefixedMember(p, keys, s);
    assert StartsWith(TTL_KEY, RESERVED_PREFIX);
    if p + s != TTL_KEY {
      ForgetManyRemovesListedKeys(d, Prefixed(p, keys));
    }
  }

  /** A prefixed key is listed exactly when the bare key is. */
  lemma PrefixedMember(p: string, keys: seq<string>, s: string)
    ensures p + s in Prefixed(p, keys) <==> s in keys
  {
    var listed := Prefixed(p, keys);
    if p + s in listed {
      var i :| 0 <= i < |listed| && listed[i] == p + s;
      assert s == (p + s)[|p|..] == (p + keys[i])[|p|..] == keys[i];
    }
    if s in keys {
      var i :| 0 <= i < |keys| && keys[i] == s;
      assert listed[i] == p + s;
    }
  }

  /** With the default delimiter, `forgetNamespace()` empties the scope and touches no data key outside it. */
  lemma ForgetNamespaceEmptiesDotScope(d: Data, namespace: string)
    ensures var p := ScopePrefix(namespace, ".");
            var r := ForgetNamespace(d, p);
            && ScopedAll(r, p) == map[]
            && forall k :: k != TTL_KEY && !StartsWith(k, p) ==> (k in r <==> k in d) && (k in r ==> r[k] == d[k])
  {
    var p := ScopePrefix(namespace, ".");
    var r := ForgetNamespace(d, p);
    DotScopeIsItsOwnNamespace(namespace);
    ForgetNamespaceRemovesPrefixedKeys(d, p);
    forall s ensures s !in ScopedAll(r, p) {
      ScopedAllAt(r, p, s);
      assert StartsWith(p + s, p);
    }
  }

  /** Every name `keysMatch` reports through a plain prefix (no `*`, `?` or backslash) is a scoped name matching the bare pattern, and back. */
  lemma ScopedMatchAgrees(d: Data, p: string, pattern: string)
    requires Plain(p) && pattern != []
    ensures forall s :: s in (set k | k in MatchingKeys(d, p + pattern) :: Strip(k, p)) <==>
                        s in ScopedKeys(d, p) && MatchesPattern(s, pattern)
  {
    var found := set k | k in MatchingKeys(d, p + pattern) :: Strip(k, p);
    forall s ensures s in found <==> s in ScopedKeys(d, p) && MatchesPattern(s, pattern) {
      ScopedKeysAt(d, p, s);
      PrefixedMatch(p, s, pattern);
      if s in found {
        var k :| k in MatchingKeys(d, p + pattern) && Strip(k, p) == s;
        PrefixedMatchStartsWith(p, k, pattern);
        assert k == p + s;
      }
      if s in ScopedKeys(d, p) && MatchesPattern(s, pattern) {
        assert p + s in MatchingKeys(d, p + pattern);
        assert Strip(p + s, p) == s;
      }
    }
  }
  /**
   * `keysMatch('')` through a scope asks the store for the bare prefix, which the
   * equality fast path matches: the scope reports the empty name, although the
   * empty pattern matches nothing on its own.
   */
  lemma EmptyPatternThroughScope()
    ensures var d := map["admin." := Str("1")];
            (set k | k in MatchingKeys(d, "admin." + "") :: Strip(k, "admin.")) == {""}
    ensures forall s :: !MatchesPattern(s, "")
  {
    var d := map["admin." := Str("1")];
    assert "admin." + "" == "admin.";
    assert !HasSpecial("admin.") by {
      forall i | 0 <= i < 6 ensures "admin."[i] !in {'*', '?', '[', ']'} {
      }
    }
    assert "admin."[0] != RESERVED_PREFIX[0];
    assert MatchingKeys(d, "admin.") == {"admin."};
    assert Strip("admin.", "admin.") == "";
  }

  /**
   * A scope whose delimiter is a backslash: its prefix `admin\\` ends in the
   * escape, so `keysMatch('*')` asks for the literal key `admin*` and finds
   * none of the scope's names.
   */
  lemma BackslashDelimiterEscapesPattern()
    ensures ScopePrefix("admin", "\\") == "admin\\"
    ensures var d := map["admin\\x" := Str("1")];
            "x" in ScopedKeys(d, "admin\\") && MatchingKeys(d, "admin\\" + "*") == {}
  {
    var d := map["admin\\x" := Str("1")];
    assert "admin\\" == "admin" + "\\";
    assert "admin\\*" == "admin" + "\\*";
    GlobLiteralPrefix("admin\\x", "admin", "\\*");
    assert "admin\\x"[5..] == "\\x";
    assert !Glob.Glob("\\x", "\\*");
    assert "admin\\*"[6] == '*';
    assert !MatchesPattern("admin\\x", "admin\\*");
    assert "admin\\x"[0] != RESERVED_PREFIX[0];
    assert Visible("admin\\x");
    assert "admin\\x"[..6] == "admin\\";
    assert "admin\\x" in KeysView(d, Some("admin\\"));
    assert Strip("admin\\x", "admin\\") == "x";
    assert "admin\\" + "*" == "admin\\*";
    assert MatchingKeys(d, "admin\\*") == {} by {
      forall k | k in d ensures !MatchesPattern(k, "admin\\*") {
        assert k == "admin\\x";
      }
    }
  }


  /** Stripping a duplicate-free list of keys that all carry the prefix keeps it duplicate-free, element for element. */
  lemma {:induction false} StrippedAt(keys: seq<string>, p: string)
    requires forall i :: 0 <= i < |keys| ==> StartsWith(keys[i], p)
    requires NoDuplicates(keys)
    ensures |Stripped(keys, p)| == |keys|
    ensures forall i :: 0 <= i < |keys| ==> keys[i] == p + Stripped(keys, p)[i]
    ensures NoDuplicates(Stripped(keys, p))
  {
    if keys != [] {
      StrippedAt(keys[1..], p);
      var r := Stripped(keys, p);
      assert r == [Strip(keys[0], p)] + Stripped(keys[1..], p);
      forall i | 0 <= i < |keys| ensures keys[i] == p + r[i] {
        if i > 0 {
          assert keys[i] == keys[1..][i - 1];
        }
      }
      forall i, j | 0 <= i < j < |r| ensures r[i] != r[j] {
        assert keys[i] == p + r[i] && keys[j] == p + r[j];
      }
    }
  }

  class SessionScope {
    const store: Store
    const prefix: string

    /** `__construct($store, $namespace, $delimiter = '.')`. */
    constructor(store: Store, namespace: string, delimiter: string)
      ensures this.store == store && prefix == ScopePrefix(namespace, delimiter)
    {
      this.store := store;
      prefix := RTrim(namespace, Chars(delimiter)) + delimiter;
    }

    /** `get`: the store's `get` on the prefixed key. */
    method Get(key: string, default: Value, now: int) returns (v: Value)
      requires store.Valid()
      modifies store`data, store`draws, store.handler
      ensures v == GetValue(old(store.data), prefix + key, default, now)
      ensures store.data == Purge(old(store.data), prefix + key, now)
      ensures store.Wrote(if Expired(old(store.data), prefix + key, now) then 1 else 0)
    {
      v := store.Get(prefix + key, default, now);
    }

    /** `has`: the store's `has` on the prefixed key. */
    method Has(key: string, now: int) returns (b: bool)
      requires store.Valid()
      modifies store`data, store`draws, store.handler
      ensures b == HasKey(old(store.data), prefix + key, now)
      ensures store.data == Purge(old(store.data), prefix + key, now)
      ensures store.Wrote(if Expired(old(store.data), prefix + key, now) then 1 else 0)
    {
      b := store.Has(prefix + key, now);
    }

    /** `put`: the store's `put` on the prefixed key. */
    method Put(key: string, value: Value)
      requires store.Valid()
      modifies store`data, store`draws, store.handler
      ensures store.data == SessionData.Put(old(store.data), prefix + key, value)
      ensures store.Wrote(1)
    {
      store.Put(prefix + key, value);
    }

    /** `putWithTtl`: the store's `putWithTtl` on the prefixed key. */
    method PutWithTtl(key: string, value: Value, ttlSeconds: int, now: int)
      requires store.Valid()
      modifies store`data, store`draws, store.handler
      ensures store.data == SessionData.PutWithTtl(old(store.data), prefix + key, value, ttlSeconds, now)
      ensures store.Wrote(1)
    {
      store.PutWithTtl(prefix + key, value, ttlSeconds, now);
    }

    /** `ttl`: the store's `ttl` on the prefixed key. */
    method Ttl(key: string, now: int) returns (r: Option<int>)
      requires store.Valid()
      modifies store`data, store`draws, store.handler
      ensures r == Remaining(old(store.data), prefix + key, now)
      ensures store.data == Purge(old(store.data), prefix + key, now)
      ensures store.Wrote(if Expired(old(store.data), prefix + key, now) then 1 else 0)
    {
      r := store.Ttl(prefix + key, now);
    }

    /** `expiresAt`: the store's `expiresAt` on the prefixed key. */
    method ExpiresAt(key: string, now: int) returns (r: Option<int>)
      requires store.Valid()
      modifies store`data, store`draws, store.handler
      ensures r == ExpiryOf(old(store.data), prefix + key, now)
      ensures store.data == Purge(old(store.data), prefix + key, now)
      ensures store.Wrote(if Expired(old(store.data), prefix + key, now) then 1 else 0)
    {
      r := store.ExpiresAt(prefix + key, now);
    }

    /** `touch`: the store's `touch` on the prefixed key. */
    method Touch(key: string, ttlSeconds: int, now: int) returns (ok: bool)
      requires store.Valid()
      modifies store`data, store`draws, store.handler
      ensures ok <==> HasKey(old(store.data), prefix + key, now) && ttlSeconds > 0
      ensures store.data == if !HasKey(old(store.data), prefix + key, now) then Purge(old(store.data), prefix + key, now)
                            else if ttlSeconds <= 0 then SessionData.Forget(old(store.data), prefix + key)
                            else Refresh(old(store.data), prefix + key, ttlSeconds, now)
      ensures store.Wrote(if Expired(old(store.data), prefix + key, now) || HasKey(old(store.data), prefix + key, now) then 1 else 0)
    {
      ok := store.Touch(prefix + key, ttlSeconds, now);
    }

    /** `forget`: the store's `forget` on the prefixed key. */
    method Forget(key: string)
      requires store.Valid()
      modifies store`data, store`draws, store.handler
      ensures store.data == SessionData.Forget(old(store.data), prefix + key)
      ensures store.Wrote(1)
    {
      store.Forget(prefix + key);
    }

    /** `forgetMany`: prefix every key, then one store call (so at most one persist). */
    method ForgetMany(keys: seq<string>)
      requires store.Valid()
      modifies store`data, store`draws, store.handler
      ensures store.data == SessionData.ForgetMany(old(store.data), Prefixed(prefix, keys))
      ensures store.Wrote(if keys == [] then 0 else 1)
    {
      var prefixed := PrefixAll(keys, prefix);
      store.ForgetMany(prefixed);
    }

    /** The loop of `forgetMany`: put the prefix in front of every key. */
    static method PrefixAll(keys: seq<string>, p: string) returns (r: seq<string>)
      ensures r == Prefixed(p, keys)
    {
      r := [];
      for i := 0 to |keys|
        invariant r == Prefixed(p, keys[..i])
      {
        PrefixedAppend(p, keys[..i], keys[i]);
        assert keys[..i + 1] == keys[..i] + [keys[i]];
        r := r + [p + keys[i]];
      }
      assert keys[..|keys|] == keys;
    }

    /** `pull`: the store's `pull` on the prefixed key. */
    method Pull(key: string, default: Value, now: int) returns (v: Value)
      requires store.Valid()
      modifies store`data, store`draws, store.handler
      ensures v == GetValue(old(store.data), prefix + key, default, now)
      ensures store.data == if Expired(old(store.data), prefix + key, now) then Purge(old(store.data), prefix + key, now)
                            else SessionData.Forget(old(store.data), prefix + key)
      ensures store.Wrote(1)
    {
      v := store.Pull(prefix + key, default, now);
    }

    /** `increment`: the store's `increment` on the prefixed key. */
    method Increment(key: string, amount: int, now: int) returns (value: int)
      requires store.Valid()
      modifies store`data, store`draws, store.handler
      ensures (store.data, value) == Incremented(Purge(old(store.data), prefix + key, now), prefix + key, amount)
      ensures store.Wrote(if Expired(old(store.data), prefix + key, now) then 2 else 1)
    {
      value := store.Increment(prefix + key, amount, now);
    }

    /** `flash`: the store's `flash` on the prefixed key. */
    method Flash(key: string, value: Value)
      requires store.Valid()
      modifies store`data, store`draws, store.handler
      ensures store.data == SessionData.Flash(old(store.data), prefix + key, value)
      ensures store.Wrote(1)
    {
      store.Flash(prefix + key, value);
    }

    /** `all`: the swept store data restricted to the scope, names stripped, values unchanged. */
    method All(now: int) returns (m: map<string, Value>)
      requires store.Valid()
      modifies store`data, store`draws, store.handler
      ensures store.data == Sweep(old(store.data), now)
      ensures m == ScopedAll(store.data, prefix)
      ensures store.Wrote(SweepWrites(old(store.data), now))
    {
      var all := store.All(now);
      m := FilterScope(all, prefix);
    }

    /** The loop of `all`: keep the visible keys under the prefix, stripped. */
    static method FilterScope(all: Data, p: string) returns (m: map<string, Value>)
      ensures m == ScopedAll(all, p)
    {
      m := map[];
      var pending := all.Keys;
      while pending != {}
        invariant pending <= all.Keys
        invariant forall s :: s in m <==> p + s in all && Visible(p + s) && p + s !in pending
        invariant forall s :: s in m ==> m[s] == all[p + s]
        decreases pending
      {
        var key :| key in pending;
        if Visible(key) && StartsWith(key, p) {
          var name := key[|p|..];
          assert key == p + name;
          forall s ensures p + s == key <==> s == name {
            if p + s == key {
              assert s == (p + s)[|p|..];
            }
          }
          m := m[name := all[key]];
        }
        pending := pending - {key};
      }
      forall s ensures s in m <==> s in ScopedAll(all, p) {
        ScopedAllAt(all, p, s);
      }
      forall s | s in m ensures m[s] == ScopedAll(all, p)[s] {
        ScopedAllAt(all, p, s);
      }
    }

    /** `keys`: the store's keys under the prefix, stripped. */
    method Keys(now: int) returns (keys: seq<string>)
      requires store.Valid()
      modifies store`data, store`draws, store.handler
      ensures store.data == Sweep(old(store.data), now)
      ensures forall s :: s in keys <==> s in ScopedKeys(store.data, prefix)
      ensures NoDuplicates(keys) && |keys| == |ScopedKeys(store.data, prefix)|
      ensures store.Wrote(SweepWrites(old(store.data), now))
    {
      var stored := store.Keys(Some(prefix), now);
      keys := StripAll(stored, prefix);
      assert forall i :: 0 <= i < |stored| ==> stored[i] in KeysView(store.data, Some(prefix));
      StrippedAt(stored, prefix);
      forall s ensures s in keys <==> s in ScopedKeys(store.data, prefix) {
        ScopedKeysAt(store.data, prefix, s);
        if s in keys {
          var i :| 0 <= i < |keys| && keys[i] == s;
          assert stored[i] == prefix + s;
        }
        if prefix + s in stored {
          var i :| 0 <= i < |stored| && stored[i] == prefix + s;
          assert prefix + keys[i] == prefix + s;
          assert keys[i] == (prefix + s)[|prefix|..];
        }
      }
      ScopedKeysCardinality(store.data, prefix);
    }

    /** The loop of `keys` and `keysMatch`: strip the prefix from every element. */
    static method StripAll(keys: seq<string>, p: string) returns (r: seq<string>)
      ensures r == Stripped(keys, p)
    {
      r := [];
      for i := 0 to |keys|
        invariant r == Stripped(keys[..i], p)
      {
        StrippedAppend(keys[..i], keys[i], p);
        assert keys[..i + 1] == keys[..i] + [keys[i]];
        r := r + [Strip(keys[i], p)];
      }
      assert keys[..|keys|] == keys;
    }

    /** `keysMatch`: the store's keys matching `prefix . pattern`, stripped. */
    method KeysMatch(pattern: string, now: int) returns (keys: seq<string>)
      requires store.Valid()
      modifies store`data, store`draws, store.handler
      ensures store.data == Sweep(old(store.data), now)
      ensures forall s :: s in keys <==> s in (set k | k in MatchingKeys(store.data, prefix + pattern) :: Strip(k, prefix))
      ensures store.Wrote(SweepWrites(old(store.data), now))
    {
      var stored := store.KeysMatch(prefix + pattern, now);
      keys := StripAll(stored, prefix);
      StrippedMembers(stored, prefix);
    }

    /** `count`: the number of names `keys()` reports. */
    method Count(now: int) returns (n: nat)
      requires store.Valid()
      modifies store`data, store`draws, store.handler
      ensures store.data == Sweep(old(store.data), now)
      ensures n == |ScopedKeys(store.data, prefix)|
      ensures store.Wrote(SweepWrites(old(store.data), now))
    {
      var keys := Keys(now);
      n := |keys|;
    }

    /** `dump`: the scope's view with listed or matching names redacted. */
    method Dump(redactKeys: seq<string>, redactPatterns: seq<string>, now: int) returns (m: map<string, Value>)
      requires store.Valid()
      modifies store`data, store`draws, store.handler
      ensures store.data == Sweep(old(store.data), now)
      ensures m == Redact(ScopedAll(store.data, prefix), redactKeys, redactPatterns)
      ensures store.Wrote(SweepWrites(old(store.data), now))
    {
      var all := All(now);
      m := Redact(all, redactKeys, redactPatterns);
    }

    /** `forgetNamespace`: the store's `forgetNamespace` on the prefix. */
    method ForgetNamespace(now: int)
      requires store.Valid()
      modifies store`data, store`draws, store.handler
      ensures store.data == SessionData.ForgetNamespace(Sweep(old(store.data), now), prefix)
      ensures store.Wrote(SweepWrites(old(store.data), now)
                          + (if InNamespace(Sweep(old(store.data), now), NamespacePrefix(prefix)) == {} then 0 else 1))
    {
      store.ForgetNamespace(prefix, now);
    }

    /** `touchAll`: the store's `touchAll` restricted to the prefix. */
    method TouchAll(ttlSeconds: int, now: int) returns (updated: nat)
      requires store.Valid()
      modifies store`data, store`draws, store.handler
      ensures store.data == SessionData.TouchAll(Sweep(old(store.data), now), ttlSeconds, Some(prefix), now)
      ensures updated == if ttlSeconds <= 0 then 0 else |KeysView(Sweep(old(store.data), now), Some(prefix))|
      ensures store.Wrote(SweepWrites(old(store.data), now) + (if updated > 0 then 1 else 0))
    {
      updated := store.TouchAll(ttlSeconds, Some(prefix), now);
    }
  }

  lemma PrefixedAppend(p: string, keys: seq<string>, key: string)
    ensures Prefixed(p, keys + [key]) == Prefixed(p, keys) + [p + key]
  {
  }

  lemma {:induction false} StrippedAppend(keys: seq<string>, key: string, p: string)
    ensures Stripped(keys + [key], p) == Stripped(keys, p) + [Strip(key, p)]
  {
    if keys != [] {
      assert (keys + [key])[1..] == keys[1..] + [key];
      StrippedAppend(keys[1..], key, p);
    }
  }

  /** The elements of a stripped list are the stripped elements. */
  lemma {:induction false} StrippedMembers(keys: seq<string>, p: string)
    ensures forall s :: s in Stripped(keys, p) <==> s in (set k | k in keys :: Strip(k, p))
  {
    if keys != [] {
      StrippedMembers(keys[1..], p);
      assert forall k :: k in keys <==> k == keys[0] || k in keys[1..];
    }
  }
}
