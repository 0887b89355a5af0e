/**
 * `GetOrCreate`, the dictionary insertion every lazily created list and node
 * goes through: return the value under a key, inserting a fresh default one
 * first when the key is absent.
 */
module Extensions {

  /** The entries after `GetOrCreate(key)`, when `made` is the fresh default value. */
  function WithKey<K, V>(entries: map<K, V>, key: K, made: V): (r: map<K, V>)
    ensures r.Keys == entries.Keys + {key}
    ensures forall k :: k in entries ==> r[k] == entries[k]
    ensures key !in entries ==> r[key] == made
  {
    if key in entries then entries else entries[key := made]
  }

  /** The value `GetOrCreate(key)` returns, when `made` is the fresh default value. */
  function ValueAt<K, V>(entries: map<K, V>, key: K, made: V): (v: V)
    ensures key in entries ==> v == entries[key]
    ensures key !in entries ==> v == made
  {
    if key in entries then entries[key] else made
  }

  /** The returned value is the one stored under the key afterwards. */
  lemma ValueIsStored<K, V>(entries: map<K, V>, key: K, made: V)
    ensures WithKey(entries, key, made)[key] == ValueAt(entries, key, made)
  {
  }

  /**
   * A second call with the same key finds the value the first one returned and
   * changes nothing, whatever default it would have made.
   */
  lemma GetOrCreateIdempotent<K, V>(entries: map<K, V>, key: K, made: V, madeAgain: V)
    ensures WithKey(WithKey(entries, key, made), key, madeAgain) == WithKey(entries, key, made)
    ensures ValueAt(WithKey(entries, key, made), key, madeAgain) == ValueAt(entries, key, made)
  {
  }

  /**
   * A mutable dictionary (C#'s `IDictionary<K, V>`), reduced to what the runtime
   * uses: `GetOrCreate` and the indexer's setter.
   */
  class Dictionary<K(==), V> {
    var entries: map<K, V>

    constructor ()
      ensures entries == map[]
    {
      entries := map[];
    }

    /**
     * Both `GetOrCreate` overloads: they differ only in which constructor makes
     * the fresh value, which is `made` here.
     */
    method GetOrCreate(key: K, made: V) returns (value: V)
      modifies this
      ensures entries == WithKey(old(entries), key, made)
      ensures value == ValueAt(old(entries), key, made)
      ensures key in old(entries) ==> entries == old(entries) && value == old(entries)[key]
      ensures key !in old(entries) ==> entries == old(entries)[key := made] && value == made
    {
      if key !in entries {
        entries := entries[key := made];
      }
      value := entries[key];
    }

    /** `dict[key] = value`: insert or replace. */
    method Set(key: K, value: V)
      modifies this
      ensures entries == old(entries)[key := value]
    {
      entries := entries[key := value];
    }
  }
}
