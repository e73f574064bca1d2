/**
 * The in-memory session handler: a map from session id to stored payload.
 * Every `write` succeeds and overwrites, `read` of an unknown id yields the
 * empty string, `destroy` removes the entry, `gc` collects nothing.
 */
module ArrayHandler {
  class ArraySessionHandler {
    /** Stored payloads, by session id. */
    var storage: map<string, string>
    /** How many writes have reached the handler; lets callers state how often they persist. */
    ghost var writes: nat

    constructor()
      ensures storage == map[] && writes == 0
    {
      storage := map[];
      writes := 0;
    }

    /** The payload stored for `id`, or the empty string when there is none. */
    function Stored(id: string): string
      reads this
    {
      if id in storage then storage[id] else ""
    }

    method Read(id: string) returns (r: string)
      ensures r == Stored(id)
      ensures id !in storage ==> r == ""
    {
      r := if id in storage then storage[id] else "";
    }

    method Write(id: string, payload: string) returns (ok: bool)
      modifies this
      ensures ok
      ensures storage == old(storage)[id := payload] && writes == old(writes) + 1
    {
      storage := storage[id := payload];
      writes := writes + 1;
      ok := true;
    }

    method Destroy(id: string) returns (ok: bool)
      modifies this`storage
      ensures ok
      ensures storage == old(storage) - {id}
    {
      storage := storage - {id};
      ok := true;
    }

    method Gc(maxLifetime: int) returns (collected: nat)
      ensures collected == 0
    {
      collected := 0;
    }
  }

  /** What was written is read back, and a second write to another id leaves it alone. */
  method WriteThenRead(id: string, other: string, payload: string, payload': string) returns (r: string)
    requires id != other
    ensures r == payload
  {
    var h := new ArraySessionHandler();
    var _ := h.Write(id, payload);
    var _ := h.Write(other, payload');
    r := h.Read(id);
  }

  /** After `destroy` the id reads as empty, as if it had never been written. */
  method DestroyThenRead(id: string, payload: string) returns (r: string)
    ensures r == ""
  {
    var h := new ArraySessionHandler();
    var _ := h.Write(id, payload);
    var _ := h.Destroy(id);
    r := h.Read(id);
  }
}
