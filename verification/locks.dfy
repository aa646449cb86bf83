/**
 The lock table: a map from a key (a collection, or "collection/resource")
 to the handle writers on that key share. Only its find-or-create step is
 modelled; what the handles do under concurrency is not.
 */
module Locks {

  /** The value sync.Mutex{} the table stores for a new key. */
  datatype Mutex = Unlocked

  /** The handle handed out and the table after the lookup. */
  datatype Lookup<H> = Lookup(handle: H, table: map<string, H>)

  /** getOrCreateMutex: the stored handle for `key`, or `created` stored and
      returned when the key is new. */
  function GetOrCreate<H>(table: map<string, H>, key: string, created: H): (r: Lookup<H>)
    ensures key in r.table && r.handle == r.table[key]
    ensures key in table ==> r.handle == table[key]
    ensures key !in table ==> r.handle == created
    ensures r.table.Keys == table.Keys + {key}
    ensures forall k :: k in table ==> r.table[k] == table[k]
  {
    if key in table then Lookup(table[key], table) else Lookup(created, table[key := created])
  }

  /** A second lookup of the same key finds what the first stored and adds nothing. */
  lemma GetOrCreateIdempotent<H>(table: map<string, H>, key: string, created: H, other: H)
    ensures var first := GetOrCreate(table, key, created);
            GetOrCreate(first.table, key, other) == first
  {
  }
}
