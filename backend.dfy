/** An in-memory stand-in for the key-value client the history writes
    through: one value per string key, with get, set, delete and copy. */
module KeyValue {
  import opened Messages

  class Backend {
    var store: map<string, seq<Record>>

    constructor (initial: map<string, seq<Record>>)
      ensures store == initial
    {
      store := initial;
    }

    /** The value under `key`, or `default` when there is none. */
    method Get(key: string, default: seq<Record>) returns (value: seq<Record>)
      ensures key in store ==> value == store[key]
      ensures key !in store ==> value == default
    {
      value := if key in store then store[key] else default;
    }

    /** Overwrites `key`; every other key keeps its value. */
    method Set(key: string, value: seq<Record>)
      modifies this
      ensures store == old(store)[key := value]
    {
      store := store[key := value];
    }

    /** Removes `key` if present; every other key keeps its value. */
    method Del(key: string)
      modifies this
      ensures store == old(store) - {key}
    {
      store := store - {key};
    }

    /** Copies the value under `source` verbatim to `target`. */
    method Copy(source: string, target: string)
      requires source in store
      modifies this
      ensures store == old(store)[target := old(store)[source]]
    {
      store := store[target := store[source]];
    }
  }
}
