/**
 * The replicated key-value store (cache.go): the table of tracked keys and
 * their values, changed only through the replicated state machine and
 * replaced wholesale when a snapshot is restored.
 */
module Cache {
  import opened Wrappers

  /** The error `GetKey` returns for a missing key. */
  function NotFound(key: string): string {
    "key " + key + " not found"
  }

  /** `cacheManager`. */
  class CacheManager {
    var data: map<string, string>

    constructor ()
      ensures data == map[]
    {
      data := map[];
    }

    /** `Get`: the stored value, or the empty string for a missing key. */
    function Get(key: string): (r: string)
      reads this
      ensures key in data ==> r == data[key]
      ensures key !in data ==> r == ""
    {
      if key in data then data[key] else ""
    }

    /** `GetKey`: the stored value, or a not-found error for a missing key. */
    function GetKey(key: string): (r: Result<string, string>)
      reads this
      ensures r.Success? <==> key in data
      ensures r.Success? ==> r.value == data[key]
      ensures r.Failure? ==> r.error == NotFound(key)
    {
      if key in data then Success(data[key]) else Failure(NotFound(key))
    }

    method Set(key: string, value: string)
      modifies this
      ensures data == old(data)[key := value]
      ensures Get(key) == value
      ensures forall k :: k != key ==> Get(k) == old(Get(k))
    {
      data := data[key := value];
    }

    /** `Del`: removes the key; a missing key is left missing. */
    method Del(key: string)
      modifies this
      ensures data == old(data) - {key}
      ensures key !in old(data) ==> data == old(data)
    {
      data := data - {key};
    }

    /**
     * `UnMarshal`: `decoded` is the result of decoding the snapshot; a
     * successful decode replaces the whole map, a failed one changes nothing.
     */
    method UnMarshal(decoded: Option<map<string, string>>) returns (ok: bool)
      modifies this
      ensures ok == decoded.Some?
      ensures decoded.Some? ==> data == decoded.value
      ensures decoded.None? ==> data == old(data)
    {
      if decoded.None? {
        return false;
      }
      data := decoded.value;
      ok := true;
    }

    /** `Clone`: a copy of the map built entry by entry. */
    method Clone() returns (r: map<string, string>)
      ensures r == data
    {
      r := map[];
      var keys := data.Keys;
      while keys != {}
        invariant keys <= data.Keys
        invariant r.Keys == data.Keys - keys
        invariant forall k :: k in r ==> r[k] == data[k]
        decreases keys
      {
        var key :| key in keys;
        r := r[key := data[key]];
        keys := keys - {key};
      }
    }

    /** `Len`: the number of keys. */
    function Len(): (n: nat)
      reads this
      ensures n == |data.Keys|
    {
      |data|
    }
  }
}
