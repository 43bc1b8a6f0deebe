/**
 * The in-memory repositories of cmd/internal/core/repo.go. The Go code has
 * three copies of the same map-backed store (commands, nodes, executions),
 * differing only in the record type; here they are one generic class whose
 * `idOf` picks the record's ID field.
 */
module Repository {
  import opened Wrappers
  import Collections

  class InMemoryRepo<T(==)> {
    /** The record's ID field, the key it is stored under. */
    const idOf: T -> string
    var data: map<string, T>

    ghost predicate Valid()
      reads this
    {
      Collections.KeyedBy(data, idOf)
    }

    /** NewInMemory*Repo: an empty store. */
    constructor (idOf: T -> string)
      ensures Valid()
      ensures this.idOf == idOf && data == map[]
    {
      this.idOf := idOf;
      data := map[];
    }

    /** Every stored record exactly once, in no particular order. */
    method List() returns (out: seq<T>)
      requires Valid()
      ensures |out| == |data|
      ensures multiset(out) == multiset(data.Values)
      ensures forall i :: 0 <= i < |out| ==> idOf(out[i]) in data && data[idOf(out[i])] == out[i]
    {
      out := Collections.MapValues(data, idOf);
    }

    /** The record stored under `id`, or None (Go's `ok == false`) when there is none. */
    method Get(id: string) returns (v: Option<T>)
      ensures v.Some? <==> id in data
      ensures v.Some? ==> v.value == data[id]
    {
      if id in data {
        v := Some(data[id]);
      } else {
        v := None;
      }
    }

    /** Upsert under the record's ID; returns its argument unchanged. */
    method Save(x: T) returns (r: T)
      requires Valid()
      modifies this
      ensures Valid()
      ensures r == x
      ensures data == old(data)[idOf(x) := x]
      ensures idOf(x) in data && data[idOf(x)] == x
      ensures idOf(x) in old(data) ==> |data| == |old(data)|
      ensures forall k :: k in old(data) && k != idOf(x) ==> k in data && data[k] == old(data)[k]
    {
      data := data[idOf(x) := x];
      r := x;
      if idOf(x) in old(data) {
        assert data.Keys == old(data).Keys;
      }
    }

    /** Removes the record stored under `id`, if any. */
    method Delete(id: string)
      requires Valid()
      modifies this
      ensures Valid()
      ensures data == old(data) - {id}
    {
      data := data - {id};
    }
  }
}
