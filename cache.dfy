/** The two-generation stock cache behind the upload endpoint and the two read
    endpoints: `stored_data` (the current generation) and `previous_data`
    (the generation before the most recent accepted upload). */
module StockCache {

  /** One stock entry as the scraper posts it: a name and a quantity text. */
  datatype Item = Item(name: string, quantity: string)

  /** An upload body or a cache slot: category key to the items listed under it. */
  type Payload = map<string, seq<Item>>

  /** Truthiness of a category value: a list is truthy when it holds an item. */
  predicate Truthy(v: seq<Item>)
  {
    |v| > 0
  }

  /** `is_empty`, i.e. `not any(data.values())`: no value of the payload is
      truthy, so every category list is empty; `{}` is empty. */
  predicate IsEmpty(d: Payload)
    ensures d == map[] ==> IsEmpty(d)
    ensures IsEmpty(d) <==> !exists v | v in d.Values :: Truthy(v)
  {
    forall k | k in d :: !Truthy(d[k])
  }

  /** The stored value for a key, or `[]` when the key is absent. */
  function Lookup(m: Payload, k: string): seq<Item>
  {
    if k in m then m[k] else []
  }

  /** The dictionary handed to `update`: every incoming key, bound to the
      incoming value when it is truthy and to the stored value (or `[]`)
      otherwise. */
  function Updates(stored: Payload, incoming: Payload): (u: Payload)
    ensures u.Keys == incoming.Keys
    ensures forall k | k in incoming && Truthy(incoming[k]) :: u[k] == incoming[k]
    ensures forall k | k in incoming && !Truthy(incoming[k]) :: u[k] == Lookup(stored, k)
    ensures forall k | k in u :: Truthy(u[k]) <==> Truthy(incoming[k]) || (k in stored && Truthy(stored[k]))
    ensures forall k | k in u && !Truthy(u[k]) :: k !in stored || stored[k] == u[k]
  {
    map k | k in incoming :: if Truthy(incoming[k]) then incoming[k] else Lookup(stored, k)
  }

  /** The current slot after an accepted upload: the old slot updated in
      place with `Updates`. */
  function Merge(stored: Payload, incoming: Payload): (r: Payload)
    ensures r.Keys == stored.Keys + incoming.Keys
    ensures forall k | k in incoming && Truthy(incoming[k]) :: r[k] == incoming[k]
    ensures forall k | k in incoming && !Truthy(incoming[k]) && k in stored :: r[k] == stored[k]
    ensures forall k | k in incoming && !Truthy(incoming[k]) && k !in stored :: r[k] == []
    ensures forall k | k in stored && k !in incoming :: r[k] == stored[k]
    ensures forall k | k in r ::
              Truthy(r[k]) <==> (k in incoming && Truthy(incoming[k])) || (k in stored && Truthy(stored[k]))
  {
    stored + Updates(stored, incoming)
  }

  /** Both cache slots as one value. */
  datatype Generations = Generations(current: Payload, previous: Payload)

  /** Both slots start as `{}`. */
  const Initial: Generations := Generations(map[], map[])

  /** The slots after one upload: an empty payload is ignored; otherwise the
      current slot is copied into the previous one and then merged. */
  function Ingest(g: Generations, d: Payload): (r: Generations)
    ensures IsEmpty(d) ==> r == g
    ensures !IsEmpty(d) ==> r.previous == g.current
    ensures g.current.Keys <= r.current.Keys
    ensures !IsEmpty(r.current) <==> !IsEmpty(d) || !IsEmpty(g.current)
  {
    if IsEmpty(d) then g else Generations(Merge(g.current, d), g.current)
  }

  /** What `/api/data` and `/view` serve: the current slot unless it is
      empty, else the previous one. */
  function Serve(g: Generations): (r: Payload)
    ensures r == g.current || r == g.previous
    ensures !IsEmpty(g.current) ==> r == g.current
    ensures IsEmpty(g.current) ==> r == g.previous
    ensures IsEmpty(r) <==> IsEmpty(g.current) && IsEmpty(g.previous)
  {
    if !IsEmpty(g.current) then g.current else g.previous
  }

  /** A fresh cache serves `{}`. */
  lemma ServeInitial()
    ensures IsEmpty(Initial.current) && IsEmpty(Initial.previous)
    ensures Serve(Initial) == map[]
  {
  }

  /** The current slot never loses a key: an accepted upload adds the
      payload's keys, an ignored one adds none. */
  lemma IngestKeys(g: Generations, d: Payload)
    ensures g.current.Keys <= Ingest(g, d).current.Keys
    ensures !IsEmpty(d) ==> Ingest(g, d).current.Keys == g.current.Keys + d.Keys
    ensures IsEmpty(d) ==> Ingest(g, d).current.Keys == g.current.Keys
  {
  }

  /** Posting the same payload again leaves the current slot as it is; when
      the payload is accepted, the second post only makes the previous slot
      a copy of the current one. */
  lemma IngestRepeat(g: Generations, d: Payload)
    ensures Ingest(Ingest(g, d), d).current == Ingest(g, d).current
    ensures !IsEmpty(d) ==> Ingest(Ingest(g, d), d).previous == Ingest(g, d).current
  {
  }

  /** An accepted upload leaves data in the current slot, and a current slot
      with data keeps it under every upload, empty or not. */
  lemma IngestKeepsData(g: Generations, d: Payload)
    ensures !IsEmpty(d) ==> !IsEmpty(Ingest(g, d).current)
    ensures !IsEmpty(g.current) ==> !IsEmpty(Ingest(g, d).current)
  {
  }

  /** After an accepted upload the read serves the current slot, and once
      the current slot holds data an empty upload does not change the read. */
  lemma ServeAfterIngest(g: Generations, d: Payload)
    ensures !IsEmpty(d) ==> Serve(Ingest(g, d)) == Ingest(g, d).current
    ensures !IsEmpty(g.current) ==> Serve(Ingest(g, d)) == Ingest(g, d).current
    ensures IsEmpty(d) ==> Serve(Ingest(g, d)) == Serve(g)
  {
  }

  /** Uploading the same payload twice is the same as uploading it once. */
  lemma MergeIdempotent(s: Payload, d: Payload)
    ensures Merge(Merge(s, d), d) == Merge(s, d)
  {
  }

  /** Two accepted uploads in a row: a category the second one leaves empty
      keeps what the first one delivered, the others take the second's. */
  lemma MergeTwice(s: Payload, p1: Payload, p2: Payload, k: string)
    requires k in p1 && Truthy(p1[k])
    ensures k in p2 && !Truthy(p2[k]) ==> Merge(Merge(s, p1), p2)[k] == p1[k]
    ensures k !in p2 ==> Merge(Merge(s, p1), p2)[k] == p1[k]
    ensures forall j | j in p2 && Truthy(p2[j]) :: Merge(Merge(s, p1), p2)[j] == p2[j]
  {
  }

  /** The slots after a history of uploads, oldest first. */
  function Replay(g: Generations, ds: seq<Payload>): (r: Generations)
    ensures g.current.Keys <= r.current.Keys
  {
    if ds == [] then g else Ingest(Replay(g, ds[..|ds| - 1]), ds[|ds| - 1])
  }

  /** A history of empty payloads (failed or blank scrapes) leaves both
      slots exactly as they were. */
  lemma {:induction false} ReplayEmptyHistory(g: Generations, ds: seq<Payload>)
    requires forall i | 0 <= i < |ds| :: IsEmpty(ds[i])
    ensures Replay(g, ds) == g
  {
    if ds != [] {
      ReplayEmptyHistory(g, ds[..|ds| - 1]);
    }
  }

  /** Once any upload was accepted (or the cache started with data), the
      current slot holds data for the rest of the history, and the read
      serves the current slot. */
  lemma {:induction false} ReplayKeepsData(g: Generations, ds: seq<Payload>)
    requires !IsEmpty(g.current) || exists i | 0 <= i < |ds| :: !IsEmpty(ds[i])
    ensures !IsEmpty(Replay(g, ds).current)
    ensures Serve(Replay(g, ds)) == Replay(g, ds).current
  {
    if ds != [] {
      var front, last := ds[..|ds| - 1], ds[|ds| - 1];
      if !IsEmpty(last) {
        IngestKeepsData(Replay(g, front), last);
      } else {
        if !IsEmpty(g.current) {
          ReplayKeepsData(g, front);
        } else {
          var i :| 0 <= i < |ds| && !IsEmpty(ds[i]);
          assert i < |ds| - 1 && front[i] == ds[i];
          ReplayKeepsData(g, front);
        }
        IngestKeepsData(Replay(g, front), last);
      }
    }
  }

  /** The previous slot holds what the current slot was just before the
      most recent accepted upload, and the current slot is that value
      merged with the accepted payload. */
  lemma {:induction false} ReplaySnapshot(g: Generations, ds: seq<Payload>, i: nat)
    requires i < |ds| && !IsEmpty(ds[i])
    requires forall j | i < j < |ds| :: IsEmpty(ds[j])
    ensures Replay(g, ds).previous == Replay(g, ds[..i]).current
    ensures Replay(g, ds).current == Merge(Replay(g, ds[..i]).current, ds[i])
  {
    var front := ds[..|ds| - 1];
    if i == |ds| - 1 {
      assert front == ds[..i];
    } else {
      assert front[..i] == ds[..i];
      assert front[i] == ds[i];
      ReplaySnapshot(g, front, i);
    }
  }

  /** Starting from the fresh cache, the read always serves the current
      slot: the previous slot is never served while it holds data. */
  lemma {:induction false} ReplayFromInitialServesCurrent(ds: seq<Payload>)
    ensures Serve(Replay(Initial, ds)) == Replay(Initial, ds).current
  {
    if exists i | 0 <= i < |ds| :: !IsEmpty(ds[i]) {
      ReplayKeepsData(Initial, ds);
    } else {
      ReplayEmptyHistory(Initial, ds);
    }
  }

  /** The in-memory store of the upload endpoint. */
  class Cache {
    var stored: Payload
    var previous: Payload

    /** Both slots as one value. */
    function State(): Generations
      reads this
    {
      Generations(stored, previous)
    }

    constructor ()
      ensures State() == Initial
      ensures IsEmpty(stored) && IsEmpty(previous)
    {
      stored := map[];
      previous := map[];
    }

    /** POST /api/upload: returns `received_items`, the number of keys in
        the body, whether or not the body was accepted. */
    method Upload(newData: Payload) returns (receivedItems: nat)
      modifies this
      ensures State() == Ingest(old(State()), newData)
      ensures IsEmpty(newData) ==> stored == old(stored) && previous == old(previous)
      ensures !IsEmpty(newData) ==> previous == old(stored) && stored == Merge(old(stored), newData)
      ensures !IsEmpty(newData) || !IsEmpty(old(stored)) ==> !IsEmpty(stored)
      ensures !IsEmpty(newData) ==> Read() == stored
      ensures receivedItems == |newData|
    {
      // As `upload` does: `stored_data.copy()` into the previous slot, then
      // `stored_data.update(...)` with the comprehension; `Merge` is the
      // same result as a value.
      if !IsEmpty(newData) {
        previous := stored;
        stored := stored + Updates(stored, newData);
        IngestKeepsData(old(State()), newData);
      }
      receivedItems := |newData|;
    }

    /** GET /api/data and the data shown by GET /view. */
    function Read(): (r: Payload)
      reads this
      ensures r == stored || r == previous
      ensures !IsEmpty(stored) ==> r == stored
      ensures IsEmpty(stored) ==> r == previous
      ensures IsEmpty(r) ==> IsEmpty(stored) && IsEmpty(previous)
    {
      Serve(State())
    }
  }
}
