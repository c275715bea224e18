/**
 * The lock-guarded generic map used for the statistics cache and the listener's
 * registration table. The lock only serialises access; in a sequential model every
 * operation is atomic, so the lock is not represented.
 */
module SyncMaps {

  class SyncMap<K(==), V> {
    /** The entries; Go's `items` field. */
    var items: map<K, V>
    /** The zero value of `V` that `Get` returns for a missing key. */
    const zero: V

    /** `NewSyncMap`: an empty map. */
    constructor (zero: V)
      ensures items == map[] && this.zero == zero
    {
      items := map[];
      this.zero := zero;
    }

    /** Stores `value` under `key`, replacing any earlier value; every other key keeps its entry. */
    method Set(key: K, value: V)
      modifies this`items
      ensures items == old(items)[key := value]
    {
      items := items[key := value];
    }

    /** The value under `key` and `true`, or the zero value and `false`; the map is not changed. */
    method Get(key: K) returns (val: V, ok: bool)
      ensures ok <==> key in items
      ensures ok ==> val == items[key]
      ensures !ok ==> val == zero
    {
      if key in items {
        val, ok := items[key], true;
      } else {
        val, ok := zero, false;
      }
    }

    /** The current contents, all of them and nothing else. */
    method Values() returns (m: map<K, V>)
      ensures m.Keys == items.Keys
      ensures forall k :: k in m ==> m[k] == items[k]
    {
      m := items;
    }

    /** Removes `key` (a no-op when it is absent); every other key keeps its entry. */
    method Del(key: K)
      modifies this`items
      ensures items == old(items) - {key}
    {
      items := items - {key};
    }
  }
}
