/**
 * `CacheSessionHandler`: session payloads kept in a PSR-16 cache under
 * `prefix . id`, every cache call wrapped in a bounded retry.
 *
 * The cache is an object with a map of entries and a fault schedule: each call
 * consumes one scheduled fault, which either lets the call behave normally,
 * makes it throw, or makes it return a chosen value without effect (a cache
 * whose `set` answers `false`, or whose `get` returns a non-string). An empty
 * schedule means every call behaves normally.
 */
module CacheHandler {
  import opened Php
  import opened Wrappers

  datatype CacheOp = Get(key: string) | Set(key: string, payload: string, ttl: Option<int>) | Delete(key: string)

  /** What the next cache call does. */
  datatype Fault = Normal | Throw(message: string) | Answer(value: Value)

  /** The outcome of one call: a returned value or a thrown exception. */
  datatype Attempt = Returned(value: Value) | Threw(message: string)

  /** The outcome of a whole retry: the final attempt, the cache afterwards, and how many calls were made. */
  datatype Run = Run(result: Attempt, entries: map<string, Value>, schedule: seq<Fault>, calls: nat)

  datatype HandlerError = CacheException(message: string) | InvalidPayloadType

  /** A well-behaved cache: `get` of a missing key is null, `set` and `delete` succeed. Expiry inside the cache is not modelled. */
  function Respond(entries: map<string, Value>, op: CacheOp): (Value, map<string, Value>) {
    match op
    case Get(key) => (if key in entries then entries[key] else Null, entries)
    case Set(key, payload, _) => (Bool(true), entries[key := Str(payload)])
    case Delete(key) => (Bool(true), entries - {key})
  }

  function NextFault(schedule: seq<Fault>): Fault {
    if schedule == [] then Normal else schedule[0]
  }

  function LaterFaults(schedule: seq<Fault>): seq<Fault> {
    if schedule == [] then [] else schedule[1..]
  }

  /** One call under a given fault. A failing call changes nothing. */
  function Step(entries: map<string, Value>, fault: Fault, op: CacheOp): (Attempt, map<string, Value>) {
    match fault
    case Normal => (Returned(Respond(entries, op).0), Respond(entries, op).1)
    case Throw(message) => (Threw(message), entries)
    case Answer(v) => (Returned(v), entries)
  }

  /**
   * `retry` with `left` retries still allowed: call once; a call that returns
   * ends the retry with its value, a call that throws with no retries left
   * ends it with that exception, any other throw tries again.
   */
  function Tries(entries: map<string, Value>, schedule: seq<Fault>, op: CacheOp, left: nat): Run
    decreases left
  {
    var (attempt, next) := Step(entries, NextFault(schedule), op);
    if attempt.Returned? || left == 0 then Run(attempt, next, LaterFaults(schedule), 1)
    else
      var rest := Tries(next, LaterFaults(schedule), op, left - 1);
      rest.(calls := rest.calls + 1)
  }

  /** The first `n` scheduled faults all throw. */
  predicate ThrowsFirst(schedule: seq<Fault>, n: nat) {
    n <= |schedule| && forall i :: 0 <= i < n ==> schedule[i].Throw?
  }

  function Repeat(op: CacheOp, n: nat): (r: seq<CacheOp>)
    ensures |r| == n && forall i :: 0 <= i < n ==> r[i] == op
  {
    if n == 0 then [] else Repeat(op, n - 1) + [op]
  }

  /** A retry makes at least one call and at most `retries + 1`. */
  lemma {:induction false} TriesBounded(entries: map<string, Value>, schedule: seq<Fault>, op: CacheOp, left: nat)
    ensures 1 <= Tries(entries, schedule, op, left).calls <= left + 1
    decreases left
  {
    var (attempt, next) := Step(entries, NextFault(schedule), op);
    if !(attempt.Returned? || left == 0) {
      TriesBounded(next, LaterFaults(schedule), op, left - 1);
    }
  }

  /**
   * When the first `j` calls throw and call `j` (counting from 0, within the
   * allowed `left + 1`) does not, the retry returns what call `j` returns,
   * after exactly `j + 1` calls, with the cache as that call leaves it.
   */
  lemma {:induction false} FirstReturnWins(entries: map<string, Value>, schedule: seq<Fault>, op: CacheOp, left: nat, j: nat)
    requires j <= left && ThrowsFirst(schedule, j) && j < |schedule| && !schedule[j].Throw?
    ensures var run := Tries(entries, schedule, op, left);
            && run.result == Step(entries, schedule[j], op).0
            && run.entries == Step(entries, schedule[j], op).1
            && run.calls == j + 1
            && run.schedule == schedule[j + 1..]
    decreases j
  {
    if j > 0 {
      assert schedule[0].Throw?;
      FirstReturnWins(entries, schedule[1..], op, left - 1, j - 1);
      assert schedule[1..][j - 1] == schedule[j];
      assert schedule[1..][j - 1 + 1..] == schedule[j + 1..];
    }
  }

  /** When every allowed call throws, the retry ends with the last exception, having called `left + 1` times and changed nothing. */
  lemma {:induction false} LastExceptionPropagates(entries: map<string, Value>, schedule: seq<Fault>, op: CacheOp, left: nat)
    requires ThrowsFirst(schedule, left + 1)
    ensures var run := Tries(entries, schedule, op, left);
            && run.result == Threw(schedule[left].message)
            && run.entries == entries
            && run.calls == left + 1
    decreases left
  {
    if left > 0 {
      assert schedule[0].Throw?;
      assert forall i :: 0 <= i < left ==> schedule[1..][i] == schedule[i + 1];
      LastExceptionPropagates(entries, schedule[1..], op, left - 1);
    }
  }

  /** With no faults scheduled the first call returns, and the cache behaves normally. */
  lemma FaultFreeRetry(entries: map<string, Value>, op: CacheOp, left: nat)
    ensures Tries(entries, [], op, left) == Run(Returned(Respond(entries, op).0), Respond(entries, op).1, [], 1)
  {
  }

  /** The cache, with its fault schedule; every call is logged. */
  class Cache {
    var entries: map<string, Value>
    var schedule: seq<Fault>
    ghost var log: seq<CacheOp>

    constructor(entries: map<string, Value>, schedule: seq<Fault>)
      ensures this.entries == entries && this.schedule == schedule && log == []
    {
      this.entries := entries;
      this.schedule := schedule;
      log := [];
    }

    /** One cache call: consume the next scheduled fault and act under it. */
    method Call(op: CacheOp) returns (r: Attempt)
      modifies this
      ensures (r, entries) == Step(old(entries), NextFault(old(schedule)), op)
      ensures schedule == LaterFaults(old(schedule))
      ensures log == old(log) + [op]
    {
      var fault := NextFault(schedule);
      schedule := LaterFaults(schedule);
      log := log + [op];
      match fault {
        case Normal =>
          match op {
            case Get(key) =>
              r := Returned(if key in entries then entries[key] else Null);
            case Set(key, payload, _) =>
              entries := entries[key := Str(payload)];
              r := Returned(Bool(true));
            case Delete(key) =>
              entries := entries - {key};
              r := Returned(Bool(true));
          }
        case Throw(message) =>
          r := Threw(message);
        case Answer(v) =>
          r := Returned(v);
      }
    }
  }

  class CacheSessionHandler {
    const cache: Cache
    const prefix: string
    const ttl: int
    const retries: nat
    const retryDelayMs: nat

    /** `__construct($cache, $prefix = 'sess_', $ttl = 0, $retries = 1, $retryDelayMs = 50)`: negative counts are clamped to 0. */
    constructor(cache: Cache, prefix: string, ttl: int, retries: int, retryDelayMs: int)
      ensures this.cache == cache && this.prefix == prefix && this.ttl == ttl
      ensures this.retries == (if retries < 0 then 0 else retries)
      ensures this.retryDelayMs == (if retryDelayMs < 0 then 0 else retryDelayMs)
    {
      this.cache := cache;
      this.prefix := prefix;
      this.ttl := ttl;
      this.retries := if retries < 0 then 0 else retries;
      this.retryDelayMs := if retryDelayMs < 0 then 0 else retryDelayMs;
    }

    /** The run a retry of `op` makes from the cache's current state. */
    function Planned(op: CacheOp): Run
      reads cache
    {
      Tries(cache.entries, cache.schedule, op, retries)
    }

    /** `retry`: call until one attempt returns or `retries + 1` attempts have thrown; the delay between attempts is not modelled. */
    method Retry(op: CacheOp) returns (r: Attempt)
      modifies cache
      ensures var run := old(Planned(op));
              && r == run.result && cache.entries == run.entries && cache.schedule == run.schedule
              && cache.log == old(cache.log) + Repeat(op, run.calls)
    {
      ghost var run := Planned(op);
      var attempt: nat := 0;
      while attempt <= retries
        invariant attempt <= retries
        invariant Tries(cache.entries, cache.schedule, op, retries - attempt).result == run.result
        invariant Tries(cache.entries, cache.schedule, op, retries - attempt).entries == run.entries
        invariant Tries(cache.entries, cache.schedule, op, retries - attempt).schedule == run.schedule
        invariant attempt + Tries(cache.entries, cache.schedule, op, retries - attempt).calls == run.calls
        invariant cache.log == old(cache.log) + Repeat(op, attempt)
        decreases retries - attempt
      {
        r := cache.Call(op);
        if r.Returned? || attempt >= retries {
          assert cache.log == old(cache.log) + Repeat(op, attempt + 1);
          return;
        }
        attempt := attempt + 1;
      }
      assert false;
    }

    /** `read`: null reads as "", a string as itself, any other value is an error; an exception propagates. */
    method Read(id: string) returns (r: Result<string, HandlerError>)
      modifies cache
      ensures var run := old(Planned(Get(prefix + id)));
              && cache.entries == run.entries && cache.schedule == run.schedule
              && cache.log == old(cache.log) + Repeat(Get(prefix + id), run.calls)
              && r == match run.result
                      case Threw(message) => Failure(CacheException(message))
                      case Returned(Null) => Success("")
                      case Returned(Str(s)) => Success(s)
                      case Returned(_) => Failure(InvalidPayloadType)
    {
      var value := Retry(Get(prefix + id));
      if value.Threw? {
        return Failure(CacheException(value.message));
      }
      if value.value == Null {
        return Success("");
      }
      if !value.value.Str? {
        return Failure(InvalidPayloadType);
      }
      return Success(value.value.s);
    }

    /** `write`: true exactly when `set` returned `true`; a positive ttl is passed to the cache, otherwise none. */
    method Write(id: string, payload: string) returns (r: Result<bool, HandlerError>)
      modifies cache
      ensures var op := Set(prefix + id, payload, if ttl > 0 then Some(ttl) else None);
              var run := old(Planned(op));
              && cache.entries == run.entries && cache.schedule == run.schedule
              && cache.log == old(cache.log) + Repeat(op, run.calls)
              && r == match run.result
                      case Threw(message) => Failure(CacheException(message))
                      case Returned(v) => Success(v == Bool(true))
    {
      var value;
      if ttl > 0 {
        value := Retry(Set(prefix + id, payload, Some(ttl)));
      } else {
        value := Retry(Set(prefix + id, payload, None));
      }
      if value.Threw? {
        return Failure(CacheException(value.message));
      }
      return Success(value.value == Bool(true));
    }

    /** `destroy`: true whatever `delete` returned; only an exception that outlasts the retries propagates. */
    method Destroy(id: string) returns (r: Result<bool, HandlerError>)
      modifies cache
      ensures var run := old(Planned(Delete(prefix + id)));
              && cache.entries == run.entries && cache.schedule == run.schedule
              && cache.log == old(cache.log) + Repeat(Delete(prefix + id), run.calls)
              && r == if run.result.Threw? then Failure(CacheException(run.result.message)) else Success(true)
    {
      var value := Retry(Delete(prefix + id));
      if value.Threw? {
        return Failure(CacheException(value.message));
      }
      return Success(true);
    }

    /** `gc`: the cache expires entries itself, so nothing is collected. */
    method Gc(maxLifetime: int) returns (n: int)
      ensures n == 0
    {
      return 0;
    }
  }

  /** A cache whose first `set` throws: with one retry the write still succeeds and stores the payload under the prefixed key. */
  method FlakyWriteIsRetried() returns (ok: Result<bool, HandlerError>, stored: Value)
    ensures ok == Success(true) && stored == Str("value")
  {
    var cache := new Cache(map[], [Throw("fail")]);
    var handler := new CacheSessionHandler(cache, "sess_", 0, 1, 0);
    ok := handler.Write("abc", "value");
    assert "sess_" + "abc" == "sess_abc";
    stored := if "sess_abc" in cache.entries then cache.entries["sess_abc"] else Null;
  }

  /** The same cache with no retries: the first exception reaches the caller and nothing is stored. */
  method FlakyWriteWithoutRetries() returns (ok: Result<bool, HandlerError>, stored: bool)
    ensures ok == Failure(CacheException("fail")) && !stored
  {
    var cache := new Cache(map[], [Throw("fail")]);
    var handler := new CacheSessionHandler(cache, "sess_", 0, 0, 0);
    ok := handler.Write("abc", "value");
    stored := "sess_abc" in cache.entries;
  }

  /** Write, read back, destroy, read again: the payload, then the empty string. */
  method WriteReadDestroy(id: string, payload: string) returns (first: Result<string, HandlerError>, second: Result<string, HandlerError>)
    ensures first == Success(payload) && second == Success("")
  {
    var cache := new Cache(map[], []);
    var handler := new CacheSessionHandler(cache, "sess_", 0, 1, 50);
    var _ := handler.Write(id, payload);
    first := handler.Read(id);
    var _ := handler.Destroy(id);
    second := handler.Read(id);
  }
}
