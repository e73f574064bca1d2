# Session store, modelled in Dafny

A model of a PHP session library: the session **Store** (id choice,
the key/value API over the session data, per-key time-to-live, two-generation
flash data, transparent `v1:` authenticated encryption with key rotation,
cookie option normalisation), the **SessionScope** view that prefixes every key
with a namespace, and two storage handlers: the in-memory
**ArraySessionHandler** and the **CacheSessionHandler** with its bounded retry.

Layout, one module per file:

| file | module | what it holds |
|---|---|---|
| `wrappers.dfy` | `Wrappers` | `Option`, `Result`, `Outcome` |
| `php.dfy` | `Php` | session values and the PHP primitives the code leans on (`??`, `rtrim`, `(int)`, `bin2hex`, `hex2bin`) |
| `errors.dfy` | `Errors` | one constructor per exception the store throws |
| `identity.dfy` | `Identity` | id validity and the id the constructor picks |
| `glob.dfy` | `Glob` | `matchesPattern` and the shell-glob subset it relies on |
| `json.dfy` | `Json` | the JSON codec as a parameter, with its round-trip law |
| `envelope.dfy` | `Envelope` | key normalisation, the `v1:` envelope, decryption over the key list |
| `cookies.dfy` | `Cookies` | `normalizeCookieOptions` |
| `session_data.dfy` | `SessionData` | every data-map transformation of the store as a function, with its lemmas |
| `array_handler.dfy` | `ArrayHandler` | `ArraySessionHandler` as a class over a `map` field |
| `store.dfy` | `SessionStore` | `Store` as a class: its methods update `data`, draw randomness and write through the handler, each proved against the `SessionData` function it must agree with |
| `scope.dfy` | `Scope` | `SessionScope` as a class over a shared `Store`, and the lemmas about prefixing |
| `cache_handler.dfy` | `CacheHandler` | a cache with a fault schedule, `CacheSessionHandler` and its retry loop |
| `scenarios.dfy` | `Scenarios` | whole request cycles over real objects |

Modelling choices:

- The session data is a `map<string, Value>`. `Value` covers null, booleans,
  integers, strings, lists and string-keyed arrays.
- The clock is a `now` parameter of every operation that reads it.
- Randomness is a stream `entropy(i, n)`, the `i`-th draw of `n` bytes. The
  store counts its draws in `draws`.
- JSON, the secretbox primitives and strict base64 are function-valued
  parameters. The laws the proofs need about them are stated as predicates:
  `Json.RoundTrips` and `Envelope.WellBehaved`. `Envelope.WellBehavedIsSatisfiable`
  shows those laws can hold together.
- Each `Store` method states the new `data` as a function of the old one. The
  twostate predicate `Store.Wrote(n)` then says that exactly `n` writes reached
  the handler, that the random stream advanced once per encrypted write, and
  that the stored payload is the sealed encoding of the final data.
- Where the store composes writes (`increment`, `start`, `touchAll`,
  `forgetNamespace`), the last write is the one that stays in the handler.

Behaviour that follows the code rather than the library's prose description:

- `forgetNamespace` always appends a `.`, whatever delimiter a scope uses.
- `pull` persists even when the key was missing.
- A stored null reads as missing for `get` (`??`).
- Flash aging removes data keys but leaves their `__ttl` entries behind.
- The envelope nonce is 24 bytes (`SODIUM_CRYPTO_SECRETBOX_NONCEBYTES`).
- A failed retry surfaces as the cache's own exception; no separate
  permanent-failure type is raised.

Each of these appears below as a lemma or contract.

## Model

| member | source | states |
|---|---|---|
| `Php.Lookup` | src/Store.php:720-725 | `$d[$k] ?? null`: null for a missing key, the stored value otherwise |
| `Php.Coalesce` | src/Store.php:130 | `$d[$k] ?? $default`: the stored value when present and not null, the default otherwise |
| `Php.RTrim` | src/Store.php:471 | the result is a prefix of the input, its last character is not trimmable, and every character removed was trimmable |
| `Php.IntCast` | src/Store.php:419-420 | `(int)` keeps integers and maps null, `false` and the empty array to 0 |
| `Php.Bin2Hex` | src/Store.php:50 | two lower-case hex digits per byte |
| `Php.Hex2Bin` | src/Store.php:596-597 | one byte per pair of hex digits |
| `Identity.FreshId` | src/Store.php:50 | a freshly drawn id always passes `isValidId` |
| `Identity.ChooseId` | src/Store.php:33-59 | an invalid explicit id is an error; a valid one is used; otherwise an array-valued cookie is an error (the TypeError of `isValidId(?string)`), a valid string cookie is reused, and anything else gives a fresh id; every chosen id is valid |
| `Identity.InjectedCookieIsReplaced` | src/Store.php:40-50 | a cookie value such as `../evil` is silently replaced, while the same value passed explicitly is rejected |
| `Identity.ArrayCookieIsATypeError` | src/Store.php:40-56 | a `SESSION_ID[]` cookie makes construction fail without an explicit id and is ignored with one |
| `Glob.GlobLiteral` | src/Store.php:798-816 | a pattern without wildcards, brackets or backslashes matches exactly itself |
| `Glob.FastPathAgreesWithGlob` | src/Store.php:804-809 | the equality fast path and the glob agree when the pattern has no special character and no backslash |
| `Glob.GlobLiteralPrefix` | src/Store.php:808-809 | a plain head of a pattern (no wildcard, bracket or backslash) consumes exactly that head of the key |
| `Glob.GlobPrefixStar` | src/Store.php:808-809 | `q*` matches exactly the keys starting with the plain `q` |
| `Glob.StarMatchesAll` | src/Store.php:808-809 | `*` matches every key |
| `Glob.PrefixedMatch` | src/SessionScope.php:122-133 | for a non-empty pattern, putting the same plain prefix on key and pattern does not change whether they match |
| `Glob.PrefixedMatchStartsWith` | src/SessionScope.php:122-133 | a key matching `prefix . pattern` starts with the plain prefix |
| `Glob.EscapeExamples` | src/Store.php:804-809 | a backslash is literal on the equality fast path and an escape under `fnmatch`: `a\*` matches only `a*` |
| `Envelope.NormalizeKey` | src/Store.php:592-614 | a 64-character hex key is hex-decoded; otherwise strict base64 is tried first and the raw key is the fallback; any result other than 32 bytes is a key-length error |
| `Envelope.RawKeyShadowedByBase64` | src/Store.php:596-607 | a raw key that also parses as base64 is decoded, not used as is, and so fails the length check |
| `Envelope.NormalizePrevious` | src/Store.php:565-571 | previous keys are normalised in order; the list fails exactly when some entry is not a non-empty string or is malformed, with the length error when every entry is a non-empty string; each result is 32 bytes |
| `Envelope.Configure` | src/Store.php:543-576 | a missing, non-string or empty key is `EncryptionKeyRequired`; a `previous_keys` that is not an array is `PreviousKeysNotArray`; success exactly when the primary and every previous key normalise; the configured keys are all 32 bytes and the plaintext flag is `(bool) allow_plaintext` |
| `Envelope.ConfigureRejectsMistypedOptions` | src/Store.php:553-573 | an integer key, a string `previous_keys` and an integer previous key are each refused with their own error; `"0"` for `allow_plaintext` is false |
| `Envelope.Encrypt` | src/Store.php:616-627 | unchanged without a key; otherwise a `v1:` envelope |
| `Envelope.TryKeys` | src/Store.php:657-664 | fails exactly when no configured key opens the ciphertext |
| `Envelope.TryKeysFirstSuccess` | src/Store.php:657-661 | when keys before `i` fail and key `i` opens the ciphertext, its plaintext is the result |
| `Envelope.TryKeysResult` | src/Store.php:657-664 | a result of the key loop is the plaintext of some configured key |
| `Envelope.PlaintextPolicy` | src/Store.php:635-641 | a payload without `v1:` is passed through exactly when plaintext is allowed, otherwise `EncryptedPayloadExpected` |
| `Envelope.DecryptedByFirstOpeningKey` | src/Store.php:629-665 | a successful decryption of a `v1:` envelope means its body base64-decodes to more than a nonce's bytes, some configured key opens it to the result, and no earlier key opens it |
| `Envelope.OpenEnvelope` | src/Store.php:616-665 | an envelope sealed under any key decrypts to what the first configured key that opens it yields, or `DecryptionFailed` when none does |
| `Envelope.EncryptDecrypt` | src/Store.php:616-665 | round trip: decrypting what `encryptPayload` produced gives the original payload |
| `Envelope.RotationKeepsOldEnvelopesReadable` | src/Store.php:581-590 | after rotating to a new key with the old one kept as previous key, an envelope sealed under the old key still decrypts; without the previous key it fails |
| `Cookies.CookieDefaultsAndSecure` | src/Store.php:510-538 | lifetime and expiry are split off the options, the defaults for path, httponly and samesite apply unless overridden, and SameSite=None forces `secure` |
| `Cookies.CookieOptionsPassThrough` | src/Store.php:510-538 | a null domain is dropped, any other domain is kept, and every other caller option passes through unchanged |
| `SessionData.WithTtlMap` | src/Store.php:748-756 | the TTL map becomes the given one, `__ttl` disappears when it is empty, nothing else changes |
| `SessionData.PurgeRemovesOnlyExpiredKey` | src/Store.php:758-773 | an expired key leaves both data and TTL map; anything else is left as it was |
| `SessionData.GetValue` | src/Store.php:125-133 | the default for an expired, missing or null entry; the stored value otherwise |
| `SessionData.Remaining` | src/Store.php:281-296 | present exactly when the key has a live expiry; then the positive number of seconds left |
| `SessionData.ExpiryOf` | src/Store.php:298-313 | present exactly when the key has a live expiry; then the absolute expiry, later than now |
| `SessionData.PutSetsValueAndDropsExpiry` | src/Store.php:252-263 | `put` sets the value and removes the key's expiry; other keys keep their values |
| `SessionData.ForgetRemovesKeyAndExpiry` | src/Store.php:366-377 | `forget` removes the key and its expiry and nothing else |
| `SessionData.PutWithTtlSetsExpiry` | src/Store.php:265-279 | a positive ttl sets the value with expiry `now + ttl`; a non-positive ttl forgets the key |
| `SessionData.RefreshMovesExpiry` | src/Store.php:315-332 | `touch` on a present key moves its expiry to `now + ttl` and keeps its value |
| `SessionData.ForgetManyRemovesListedKeys` | src/Store.php:382-398 | every listed key leaves data and TTL map, every other key stays |
| `SessionData.NamespacePrefix` | src/Store.php:471 | the normalised namespace always ends in `.` |
| `SessionData.ForgetNamespaceRemovesPrefixedKeys` | src/Store.php:465-488 | exactly the keys starting with the normalised prefix leave the data, and their TTL entries go with them |
| `SessionData.ExpiredKeys` | src/Store.php:785-786 | exactly the keys whose expiry is no later than now |
| `SessionData.SweepRemovesExactlyExpiredKeys` | src/Store.php:775-796 | the sweep removes exactly the expired keys from data and TTL map, and changes nothing when none has expired |
| `SessionData.TouchAllExtendsVisibleKeys` | src/Store.php:334-364 | every visible key under the prefix gets expiry `now + ttl`; values and other expiries stay; a non-positive ttl changes nothing |
| `SessionData.TtlWindow` | src/Store.php:265-296 | a key put with a positive ttl is readable strictly before `now + ttl`, with the right remaining seconds, and gone from that second on |
| `SessionData.ExpiredKeyIsUnreadable` | src/Store.php:125-143 | an expired key reads as the default, is not present, and has no ttl or expiry |
| `SessionData.SweepIdempotent` | src/Store.php:775-796 | after a sweep nothing is expired, so a second sweep at the same time changes nothing |
| `SessionData.SweepAgreesWithPurge` | src/Store.php:758-796 | the eager sweep and the lazy purge remove the same key |
| `SessionData.SingleKeyOperationsKeepTtlKeysPresent` | src/Store.php:252-444 | put, putWithTtl, forget, the purge, increment and flash keep every TTL entry backed by a data entry |
| `SessionData.BatchOperationsKeepTtlKeysPresent` | src/Store.php:334-488 | forgetMany, forgetNamespace, the sweep and touchAll keep every TTL entry backed by a data entry |
| `SessionData.IncrementAddsToIntValue` | src/Store.php:413-426 | the new value is the `(int)` cast of the old one (0 when missing) plus the amount, stored under the key and returned |
| `SessionData.FlashSetsValueAndListsKey` | src/Store.php:428-444 | `flash` sets the value and lists the key in `__flash_new` unless it is already listed: a list gains it at its end, a string-keyed array keeps all its entries and gains one, any other value gives way to a one-element list; no other key changes |
| `SessionData.DistinctCardinality` | src/Store.php:148-164 | a duplicate-free list has as many elements as its set |
| `SessionData.AppendKey` | src/Store.php:432-439 | appending a key to an array leaves an array naming exactly the keys it named before plus this one |
| `SessionData.FlashListsKeyOnce` | src/Store.php:437-439 | a `__flash_new` that names no key twice (list or string-keyed array) still names no key twice |
| `SessionData.AgeFlashDropsOldAndShifts` | src/Store.php:701-733 | aging removes exactly the keys listed in `__flash_old`, leaves the other values alone, sets `__flash_new` to the empty array, and reports no change only when the data is unchanged |
| `SessionData.AgeFlashMovesNewToOld` | src/Store.php:715-723 | for data whose `__flash_old` does not list `__flash_new` itself, the new `__flash_old` is the old `__flash_new`, or the empty list when that was not an array |
| `SessionData.FlashLifecycle` | src/Store.php:428-444 | a flashed key survives the next `start` with its value and is removed by the one after |
| `SessionData.ReflashedKeyIsLost` | src/Store.php:428-444 | flashing a key that is already pending removal loses it at the next `start` |
| `SessionData.AgingCanOrphanTtlEntries` | src/Store.php:701-733 | an aged-out key keeps its `__ttl` entry, so the TTL invariant can break at `start` |
| `SessionData.RedactMasksMatchingKeys` | src/Store.php:229-247 | the same keys come back; listed or pattern-matching keys carry `***`, the rest their value |
| `SessionData.DumpHidesBookkeeping` | src/Store.php:222-250 | `dump` drops the three reserved entries and redacts the rest |
| `ArrayHandler.ArraySessionHandler.constructor` | src/Handlers/ArraySessionHandler.php:9-10 | starts with no stored sessions |
| `ArrayHandler.ArraySessionHandler.Read` | src/Handlers/ArraySessionHandler.php:22-25 | the stored payload, or `""` for an unknown id |
| `ArrayHandler.ArraySessionHandler.Write` | src/Handlers/ArraySessionHandler.php:27-32 | stores the payload under the id, leaves other ids alone, returns true |
| `ArrayHandler.ArraySessionHandler.Destroy` | src/Handlers/ArraySessionHandler.php:34-39 | removes the id and nothing else, returns true |
| `ArrayHandler.ArraySessionHandler.Gc` | src/Handlers/ArraySessionHandler.php:41-44 | collects nothing |
| `ArrayHandler.WriteThenRead` | tests/ArraySessionHandlerTest.php:22-30 | a written payload reads back, and a write to another id leaves it alone |
| `ArrayHandler.DestroyThenRead` | src/Handlers/ArraySessionHandler.php:22-39 | after `destroy` the id reads as empty |
| `SessionStore.Store.Init` | src/Store.php:33-54 | a store built on a valid id and well-formed keys starts with empty data |
| `SessionStore.Store.Open` | src/Store.php:33-59 | the constructor: fails exactly when the explicit id is invalid, or there is none and the cookie is an array, or the encryption options are rejected, with that error; otherwise an empty store under the chosen id with the normalised cookie and encryption settings, one more entropy draw exactly when a fresh id was generated |
| `SessionStore.Store.RandomBytes` | src/Store.php:50 | the next draw of the random stream, of the requested length |
| `SessionStore.Store.EncryptPayload` | src/Store.php:616-627 | the envelope under the primary key with a fresh nonce, drawing randomness only when encryption is on |
| `SessionStore.Store.DecryptPayload` | src/Store.php:629-665 | agrees with `Envelope.Decrypt` |
| `SessionStore.Store.Persist` | src/Store.php:490-504 | one write of the sealed encoding of the current data under the current id |
| `SessionStore.Store.PurgeExpiredKey` | src/Store.php:758-773 | reports exactly whether the key had expired, and removes it from data and TTL map when it had |
| `SessionStore.Store.SweepExpired` | src/Store.php:775-796 | the data becomes its sweep; one write exactly when something expired |
| `SessionStore.Store.Start` | src/Store.php:87-110 | an empty payload gives empty data; a decryption or decoding failure is reported and changes nothing; otherwise the decoded data is aged, with one write for a plaintext migration and one for a change in flash data |
| `SessionStore.Store.Settle` | src/Store.php:107-109 | migration then aging: the data is the aged data, with the writes of both steps |
| `SessionStore.Store.MaybeMigratePlaintext` | src/Store.php:667-678 | re-persists exactly when plaintext is allowed and the stored payload lacks `v1:` |
| `SessionStore.Store.AgeFlashData` | src/Store.php:701-733 | the data becomes its aged form; one write exactly when aging changed something |
| `SessionStore.Store.RegenerateId` | src/Store.php:112-123 | the id becomes a fresh one, the data is written under it, and the old entry is destroyed when asked |
| `SessionStore.Store.PurgeAndPersist` | src/Store.php:415-417 | the lazy purge followed by a write when it removed the key |
| `SessionStore.Store.Get` | src/Store.php:125-133 | the value `SessionData.GetValue` gives; an expired key is purged and persisted |
| `SessionStore.Store.Has` | src/Store.php:135-143 | present and not expired (a stored null counts); an expired key is purged and persisted |
| `SessionStore.Store.Keys` | src/Store.php:148-164 | after a sweep, exactly the visible keys (under the prefix, when given), each once |
| `SessionStore.Store.KeysMatch` | src/Store.php:169-185 | after a sweep, exactly the visible keys matching the pattern, each once |
| `SessionStore.Store.Count` | src/Store.php:187-200 | after a sweep, the number of visible keys |
| `SessionStore.Store.Dump` | src/Store.php:222-250 | after a sweep, the data without reserved entries, redacted |
| `SessionStore.Store.All` | src/Store.php:449-453 | the swept data, reserved entries included |
| `SessionStore.Store.Put` | src/Store.php:252-263 | the value is set, its expiry dropped, one write |
| `SessionStore.Store.PutWithTtl` | src/Store.php:265-279 | the value is set with expiry `now + ttl`, or forgotten for a non-positive ttl; one write |
| `SessionStore.Store.Ttl` | src/Store.php:281-296 | the seconds left of a live expiry; an expired key is purged and persisted |
| `SessionStore.Store.ExpiresAt` | src/Store.php:298-313 | the absolute live expiry; an expired key is purged and persisted |
| `SessionStore.Store.Touch` | src/Store.php:315-332 | true exactly when the key is present and the ttl positive; the expiry moves, or the key is forgotten for a non-positive ttl |
| `SessionStore.Store.TouchAll` | src/Store.php:334-364 | after a sweep every visible key under the prefix gets the new expiry; returns how many, and writes once more when any was touched |
| `SessionStore.Store.TouchSwept` | src/Store.php:341-363 | the part after the sweep, for a positive ttl |
| `SessionStore.Store.ExtendExpiries` | src/Store.php:346-356 | the loop: the TTL map gains `now + ttl` for every visible key under the prefix; the count is their number |
| `SessionStore.Store.Forget` | src/Store.php:366-377 | the key and its expiry go; one write |
| `SessionStore.Store.ForgetMany` | src/Store.php:382-398 | every listed key goes, with one write; an empty list writes nothing |
| `SessionStore.Store.Pull` | src/Store.php:400-411 | the value `get` would return, then the key is forgotten; always exactly one write |
| `SessionStore.Store.Increment` | src/Store.php:413-426 | after the lazy purge, the `(int)` value plus the amount is stored and returned; one write, two when the key had expired |
| `SessionStore.Store.Flash` | src/Store.php:428-444 | the value is set and listed in `__flash_new`; one write |
| `SessionStore.Store.Destroy` | src/Store.php:455-463 | the data is emptied and the stored entry removed, without a write |
| `SessionStore.Store.ForgetNamespace` | src/Store.php:465-488 | after a sweep every key under `rtrim(prefix, '.') . '.'` goes, with one write when any went |
| `SessionStore.Store.ForgetSweptNamespace` | src/Store.php:469-487 | the part after the sweep |
| `SessionStore.Store.RotateEncryptionKey` | src/Store.php:581-590 | the new configuration is installed and the data re-persisted under it, or the configuration error is reported and nothing changes |
| `Scope.Strip` | src/SessionScope.php:97 | for a prefixed key, prefix plus result gives the key back |
| `Scope.Prefixed` | src/SessionScope.php:61-64 | same length; each key with the prefix in front |
| `Scope.TrailingDelimiterIsIgnored` | src/SessionScope.php:10-14 | `admin` and `admin.` name the same scope |
| `Scope.DotScopeIsItsOwnNamespace` | src/SessionScope.php:205-208 | with the `.` delimiter the store's namespace normalisation leaves the scope prefix unchanged |
| `Scope.ColonScopeIsNotCleared` | src/SessionScope.php:205-208 | with a `:` delimiter `forgetNamespace` leaves `admin:x` in place, because the store appends a `.` |
| `Scope.ScopedKeysAt` | src/SessionScope.php:107-117 | a name is in the scope exactly when the prefixed key is a visible store key |
| `Scope.ScopedAllAt` | src/SessionScope.php:87-102 | a name is in `all()` exactly when the prefixed key is a visible store key, with that key's value |
| `Scope.ScopedKeysCardinality` | src/SessionScope.php:107-117 | the scope has as many names as the store has keys under the prefix |
| `Scope.ScopesSeeDisjointKeys` | src/SessionScope.php:87-117 | two scopes whose prefixes do not extend each other see disjoint store keys |
| `Scope.PutIsInvisibleToOtherScopes` | src/SessionScope.php:26-29 | a put through one scope does not change an unrelated scope's `all()` |
| `Scope.ScopedPutThenRead` | src/SessionScope.php:16-29 | a value put through the scope reads back through it (a null as the default) and appears under its bare name in the scope's `all()` |
| `Scope.ScopedForgetMany` | src/SessionScope.php:59-67 | exactly the listed names leave the scope's view |
| `Scope.PrefixedMember` | src/SessionScope.php:61-64 | a prefixed key is listed exactly when the bare key is |
| `Scope.ForgetNamespaceEmptiesDotScope` | src/SessionScope.php:205-208 | with the `.` delimiter the scope is emptied and no data key outside it changes |
| `Scope.ScopedMatchAgrees` | src/SessionScope.php:122-133 | for a non-empty pattern, the names `keysMatch` reports through a plain prefix are exactly the scope's names matching the bare pattern |
| `Scope.EmptyPatternThroughScope` | src/SessionScope.php:122-133 | `keysMatch('')` through a scope reports the empty name when the bare prefix is stored, although the empty pattern matches nothing |
| `Scope.BackslashDelimiterEscapesPattern` | src/SessionScope.php:122-133 | with a `\` delimiter the prefix escapes the pattern's first character, and `keysMatch('*')` misses the scope's keys |
| `Scope.StrippedAt` | src/SessionScope.php:110-116 | stripping a duplicate-free list of prefixed keys keeps it duplicate-free, element by element |
| `Scope.StrippedMembers` | src/SessionScope.php:110-116 | the elements of the stripped list are the stripped elements |
| `Scope.SessionScope.constructor` | src/SessionScope.php:10-14 | the prefix is `rtrim(namespace, delimiter) . delimiter` |
| `Scope.SessionScope.Get` | src/SessionScope.php:16-19 | the store's `get` on the prefixed key |
| `Scope.SessionScope.Has` | src/SessionScope.php:21-24 | the store's `has` on the prefixed key |
| `Scope.SessionScope.Put` | src/SessionScope.php:26-29 | the store's `put` on the prefixed key |
| `Scope.SessionScope.PutWithTtl` | src/SessionScope.php:31-34 | the store's `putWithTtl` on the prefixed key |
| `Scope.SessionScope.Ttl` | src/SessionScope.php:36-39 | the store's `ttl` on the prefixed key |
| `Scope.SessionScope.ExpiresAt` | src/SessionScope.php:41-44 | the store's `expiresAt` on the prefixed key |
| `Scope.SessionScope.Touch` | src/SessionScope.php:46-49 | the store's `touch` on the prefixed key |
| `Scope.SessionScope.Forget` | src/SessionScope.php:51-54 | the store's `forget` on the prefixed key |
| `Scope.SessionScope.ForgetMany` | src/SessionScope.php:59-67 | every key prefixed, then one store call: one write, none for an empty list |
| `Scope.SessionScope.PrefixAll` | src/SessionScope.php:61-64 | the loop puts the prefix in front of every key, in order |
| `Scope.SessionScope.Pull` | src/SessionScope.php:69-72 | the store's `pull` on the prefixed key |
| `Scope.SessionScope.Increment` | src/SessionScope.php:74-77 | the store's `increment` on the prefixed key |
| `Scope.SessionScope.Flash` | src/SessionScope.php:79-82 | the store's `flash` on the prefixed key |
| `Scope.SessionScope.All` | src/SessionScope.php:87-102 | the swept store data restricted to the scope, names stripped, values unchanged |
| `Scope.SessionScope.FilterScope` | src/SessionScope.php:90-99 | the loop keeps exactly the visible keys under the prefix, stripped |
| `Scope.SessionScope.Keys` | src/SessionScope.php:107-117 | exactly the scope's names, each once, as many as the store has keys under the prefix |
| `Scope.SessionScope.StripAll` | src/SessionScope.php:110-116 | the loop strips the prefix from every element, in order |
| `Scope.SessionScope.KeysMatch` | src/SessionScope.php:122-133 | the store's keys matching `prefix . pattern`, stripped |
| `Scope.SessionScope.Count` | src/SessionScope.php:135-138 | the number of names `keys()` reports |
| `Scope.SessionScope.Dump` | src/SessionScope.php:158-183 | the scope's `all()` with listed or matching names redacted |
| `Scope.SessionScope.ForgetNamespace` | src/SessionScope.php:205-208 | the store's `forgetNamespace` on the prefix |
| `Scope.SessionScope.TouchAll` | src/SessionScope.php:210-213 | the store's `touchAll` restricted to the prefix |
| `CacheHandler.Repeat` | src/Handlers/CacheSessionHandler.php:85-111 | `n` copies of one cache call, the log of a retry |
| `CacheHandler.TriesBounded` | src/Handlers/CacheSessionHandler.php:85-111 | a retry makes at least one call and at most `retries + 1` |
| `CacheHandler.FirstReturnWins` | src/Handlers/CacheSessionHandler.php:90-92 | when the first `j` calls throw and call `j` is allowed and returns, the retry returns that value after `j + 1` calls |
| `CacheHandler.LastExceptionPropagates` | src/Handlers/CacheSessionHandler.php:93-97 | when all `retries + 1` calls throw, the last exception propagates and the cache is unchanged |
| `CacheHandler.FaultFreeRetry` | src/Handlers/CacheSessionHandler.php:85-92 | without faults the first call returns and the cache behaves normally |
| `CacheHandler.Cache.constructor` | tests/CacheSessionHandlerTest.php:156-158 | a cache with given entries and fault schedule, and an empty log |
| `CacheHandler.Cache.Call` | tests/CacheSessionHandlerTest.php:156-168 | one call consumes the next scheduled fault and acts under it; a thrown call changes nothing |
| `CacheHandler.CacheSessionHandler.constructor` | src/Handlers/CacheSessionHandler.php:16-29 | negative retry counts and delays are clamped to 0 |
| `CacheHandler.CacheSessionHandler.Retry` | src/Handlers/CacheSessionHandler.php:85-111 | the loop makes the run `Tries` describes: the first returning call wins, otherwise the last exception propagates; the fallback after the loop is unreachable |
| `CacheHandler.CacheSessionHandler.Read` | src/Handlers/CacheSessionHandler.php:41-56 | null reads as `""`, a string as itself, any other value is an error; an exception that outlasts the retries propagates |
| `CacheHandler.CacheSessionHandler.Write` | src/Handlers/CacheSessionHandler.php:58-69 | true exactly when `set` returned `true`; a positive ttl is passed to the cache, otherwise none |
| `CacheHandler.CacheSessionHandler.Destroy` | src/Handlers/CacheSessionHandler.php:71-78 | true whatever `delete` returned, unless an exception outlasts the retries |
| `CacheHandler.CacheSessionHandler.Gc` | src/Handlers/CacheSessionHandler.php:80-83 | collects nothing |
| `CacheHandler.FlakyWriteIsRetried` | tests/CacheSessionHandlerTest.php:30-36 | a cache whose first `set` throws: with one retry the write succeeds and the payload is stored under `sess_abc` |
| `CacheHandler.FlakyWriteWithoutRetries` | src/Handlers/CacheSessionHandler.php:93-96 | the same cache without retries: the exception reaches the caller and nothing is stored |
| `CacheHandler.WriteReadDestroy` | tests/CacheSessionHandlerTest.php:10-28 | write, read back, destroy, read again: the payload, then `""` |
| `Scenarios.SealedDataReloads` | src/Store.php:490-504 | what `persist` stores is non-empty and decrypts and decodes back to the data, whatever the encryption setting |
| `Scenarios.RequestCycle` | tests/CacheSessionHandlerTest.php:16-23 | a value put in one request is read back by a new store under the same id after `start`; the stores here run over `ArraySessionHandler` in place of the test's cache handler |
| `Scenarios.FreshPutSurvivesStart` | src/Store.php:701-733 | a single plain entry survives flash aging and reads back |
| `Scenarios.TtlExpiry` | src/Store.php:265-279 | a key with a ten-second ttl reads back at second nine and is gone at second ten |
| `Scenarios.ScopeIsolation` | src/SessionScope.php:87-102 | a put through the `admin` scope reads back there and leaves the `user` scope's `all()` empty |

## Left out

- Cookie and header I/O: `setSessionCookie`, `clearSessionCookie`, `isHttpsRequest`, and the `clearCookie` flag of `destroy`. The HTTPS flag is a parameter of cookie normalisation.
- `size()` in the store and in the scope: it measures the byte length of the payload, which depends on the JSON encoder, a parameter here.
- Availability checks for the sodium extension, and the exception they raise.
- `open` and `close` of both handlers: they only return true.
- The retry delay (`usleep`): time does not pass in the model. The clamped delay is kept as a field.
- Expiry inside the cache behind `CacheSessionHandler`: the cache model keeps entries until they are deleted.
- PHP array order: the data is an unordered map. Enumeration results are stated as duplicate-free lists with a given set of elements, not in insertion order.
- Integer array keys, and a `__ttl` stored as a list: only string keys are modelled. An integer key of a string-keyed `__flash_new` is its decimal string.
- `SessionData.AppendKey`: `$flash[] = $key` on a string-keyed array takes the least unused integer index, where PHP takes one past the largest integer key. The two agree when the integer keys run from 0 without gaps.
- `Php.IntCast`: numeric strings in float notation (`"1e3"`, `"1.5e3"`) are cast by their leading digits (1 for both), where PHP 8 casts them through their float value (1000 and 1500). This reaches `increment` (src/Store.php:419-420) and the expiry reads of `__ttl` (src/Store.php:766, 785) only when such a string is stored.
- The clock re-read within one call: `ttl`, `expiresAt`, `touch` and `touchAll` (src/Store.php:293, 312, 327, 342) call `time()` again after the lazy purge; the model reads one `now` for the whole call, so a second boundary crossed between the two reads is not modelled.
- `Envelope.WellBehaved` assumes the secretbox is key-committing: opening with a key other than the one that sealed fails. Real secretbox does not promise this, so the half of `Envelope.RotationKeepsOldEnvelopesReadable` saying that an old envelope fails without the previous key is an idealisation.
- Floats, and integer overflow (PHP ints are 64-bit; the model's are unbounded).
- Non-string entries in the flash lists, beyond being skipped.
- Bracket classes in `fnmatch` patterns, and the regex fallback used when `fnmatch` is missing: `*`, `?` and the `\` escape are modelled, and every other character is literal.
- `Glob.MatchesPattern`: the limits of PHP's `fnmatch` are not modelled. A key or pattern of 4096 bytes or more (MAXPATHLEN) fails to match, with a warning, and a key or pattern holding a NUL byte throws a ValueError. The model matches at any length and never fails, so `keysMatch`, `dump` and the scope's `keysMatch` differ on such keys.
- Bytes against characters in `fnmatch`: PHP strings are bytes, so `?` matches one byte, where the model's `?` matches one character; they disagree on keys with multi-byte characters.
- `Glob.GlobLiteralPrefix`: proved only for a plain head (no `*`, `?`, `[`, `]` or `\`); a head holding a backslash escapes the character after it and is not matched literally, as `Glob.EscapeExamples` shows.
- `Glob.GlobPrefixStar`: proved only for a plain `q`; for a `q` ending in a backslash `q*` matches only the literal star.
- `Glob.PrefixedMatch`: proved only for a plain prefix and a non-empty pattern; a prefix ending in a backslash changes the meaning of the pattern's first character, and under the empty pattern the prefix alone matches the bare prefix while the empty pattern matches nothing.
- `Glob.PrefixedMatchStartsWith`: proved only for a plain prefix, for the same reason.
- `Scope.ScopedMatchAgrees`: proved only for a plain scope prefix and a non-empty pattern; a scope with a `\` delimiter does not get this property, as `Scope.BackslashDelimiterEscapesPattern` shows, and `keysMatch('')` reports the empty name when the bare prefix is stored, as `Scope.EmptyPatternThroughScope` shows.
- The numeric-key coercion of PHP arrays in the scope's `all()`.
- `rtrim` character ranges such as `a..z` in a delimiter: each delimiter character is trimmed literally.
- JSON nesting depth and encoding errors: the codec is a total encoder with a partial decoder.
- The two exceptions of a bad payload: malformed JSON raises a RuntimeException and JSON that is not an object a TypeError (src/Store.php:102-104); both are the one error `InvalidSessionPayload`, and both leave the data unchanged.
- `Session`, `SessionManager` and the file, Redis and Predis handlers are not part of this model. The store is modelled over `ArraySessionHandler`.
- `SessionStore.Store.Open`: the id and the encryption settings are chosen by a static method that returns a store or an error, because a constructor cannot fail.
