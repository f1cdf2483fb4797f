/** `DistributedCache<TCacheItem>`: a typed face of a key/value backend.
    Keys are prefixed with the cache name, values are stored with entry
    options, and every backend failure is swallowed.

    The backend is a map from normalised key to the stored item and the
    options it was stored with; a stored null reads back as null, which the
    cache treats as a miss.  Which backend operations throw is given by
    `failing`.  Serialising and deserialising an item is taken to give the
    item back. */
module DistributedCaches {
  import opened Wrappers
  import opened Text
  import opened Exceptions

  /** The part of `DistributedCacheEntryOptions` this code sets, in minutes. */
  datatype EntryOptions = EntryOptions(absoluteMinutes: Option<int>, slidingMinutes: Option<int>)

  /** The global default the caching registration configures: a sliding
      expiration of 20 minutes. */
  const GlobalCacheEntryOptions := EntryOptions(None, Some(20))

  /** The backend operations, for saying which of them throw. */
  datatype BackendOp = GetOp | SetOp | RefreshOp | RemoveOp

  /** `NormalizeKey(key)` */
  function NormalizeKey(cacheName: string, key: string): (r: string)
    ensures |r| == |cacheName| + |key| + 5
  {
    "c:" + cacheName + ",k:" + key
  }

  /** Within one cache, the key can be read back from its normalised form,
      so different keys never share a backend entry. */
  lemma NormalizeKeyInjective(cacheName: string, a: string, b: string)
    ensures NormalizeKey(cacheName, a)[|cacheName| + 5..] == a
    ensures NormalizeKey(cacheName, a) == NormalizeKey(cacheName, b) ==> a == b
  {
    assert NormalizeKey(cacheName, a) == ("c:" + cacheName + ",k:") + a;
    assert NormalizeKey(cacheName, b) == ("c:" + cacheName + ",k:") + b;
  }

  /** The options the first configurator that has any gives, or the global
      options when none has. */
  function DefaultEntryOptions(configurators: seq<string -> Option<EntryOptions>>, cacheName: string,
                               global: EntryOptions): (r: EntryOptions)
    decreases |configurators|
  {
    if configurators == [] then global
    else if configurators[0](cacheName).Some? then configurators[0](cacheName).value
    else DefaultEntryOptions(configurators[1..], cacheName, global)
  }

  /** The default is the answer of the first configurator that answers. */
  lemma {:induction false} DefaultEntryOptionsFirst(configurators: seq<string -> Option<EntryOptions>>, cacheName: string,
                                                    global: EntryOptions, i: int)
    requires 0 <= i < |configurators| && configurators[i](cacheName).Some?
    requires forall j :: 0 <= j < i ==> configurators[j](cacheName).None?
    ensures DefaultEntryOptions(configurators, cacheName, global) == configurators[i](cacheName).value
    decreases i
  {
    if i > 0 {
      DefaultEntryOptionsFirst(configurators[1..], cacheName, global, i - 1);
    }
  }

  /** With no configurator answering, the global options are the default. */
  lemma {:induction false} DefaultEntryOptionsGlobal(configurators: seq<string -> Option<EntryOptions>>, cacheName: string,
                                                     global: EntryOptions)
    requires forall j :: 0 <= j < |configurators| ==> configurators[j](cacheName).None?
    ensures DefaultEntryOptions(configurators, cacheName, global) == global
    decreases |configurators|
  {
    if configurators != [] {
      DefaultEntryOptionsGlobal(configurators[1..], cacheName, global);
    }
  }

  /** `GetDefaultCacheEntryOptions()`: the configurators are tried in order
      and the first non-null answer returned. */
  method GetDefaultCacheEntryOptions(configurators: seq<string -> Option<EntryOptions>>, cacheName: string,
                                     global: EntryOptions) returns (r: EntryOptions)
    ensures r == DefaultEntryOptions(configurators, cacheName, global)
  {
    for i := 0 to |configurators|
      invariant DefaultEntryOptions(configurators, cacheName, global) == DefaultEntryOptions(configurators[i..], cacheName, global)
    {
      assert configurators[i..][1..] == configurators[i + 1..];
      var options := configurators[i](cacheName);
      if options.Some? {
        return options.value;
      }
    }
    r := global;
  }

  class DistributedCache<V(==)> {
    /** `CacheName`: never assigned, so empty. */
    const cacheName: string
    const defaultOptions: EntryOptions
    const failing: set<BackendOp>
    var backend: map<string, (Option<V>, EntryOptions)>

    /** The constructor fixes the default options once. */
    constructor (configurators: seq<string -> Option<EntryOptions>>, global: EntryOptions, failing: set<BackendOp>)
      ensures cacheName == "" && this.failing == failing && backend == map[]
      ensures defaultOptions == DefaultEntryOptions(configurators, "", global)
    {
      var options := GetDefaultCacheEntryOptions(configurators, "", global);
      cacheName := "";
      this.failing := failing;
      backend := map[];
      defaultOptions := options;
    }

    /** What a successful backend read of `key` gives. */
    function Stored(key: string): (r: Option<V>)
      reads this
      ensures r.Some? ==> NormalizeKey(cacheName, key) in backend
    {
      var k := NormalizeKey(cacheName, key);
      if k in backend then backend[k].0 else None
    }

    /** `Get(key)`: null when the backend throws or holds nothing (or null)
        for the key, otherwise the stored item. */
    method Get(key: string) returns (r: Option<V>)
      ensures GetOp in failing ==> r.None?
      ensures GetOp !in failing ==> r == Stored(key)
    {
      if GetOp in failing {
        return None;
      }
      var k := NormalizeKey(cacheName, key);
      if k !in backend {
        return None;
      }
      r := backend[k].0;
    }

    /** `Set(key, value, options)`: the item is stored with the given options
        or the default ones; a backend failure leaves everything as it was. */
    method Set(key: string, value: Option<V>, options: Option<EntryOptions>)
      modifies this
      ensures SetOp in failing ==> backend == old(backend)
      ensures SetOp !in failing ==>
        backend == old(backend)[NormalizeKey(cacheName, key) := (value, options.GetOr(defaultOptions))]
    {
      if SetOp in failing {
        return;
      }
      backend := backend[NormalizeKey(cacheName, key) := (value, options.GetOr(defaultOptions))];
    }

    /** `Refresh(key)`: renews a sliding expiration; the stored items do not change. */
    method Refresh(key: string)
      ensures backend == old(backend)
    {
    }

    /** `Remove(key)`: the entry is gone unless the backend throws. */
    method Remove(key: string)
      modifies this
      ensures RemoveOp in failing ==> backend == old(backend)
      ensures RemoveOp !in failing ==> backend == old(backend) - {NormalizeKey(cacheName, key)}
    {
      if RemoveOp in failing {
        return;
      }
      backend := backend - {NormalizeKey(cacheName, key)};
    }

    /** `GetOrAdd(key, factory, optionsFactory)`, sequentially: a hit returns
        the cached item and the factory is not called (`called` is false); a
        miss calls the factory once (its answer is `produced`), stores what
        it gives with the options `optionsFactory` gives (`options`) and
        returns it.  An exception from the factory propagates and nothing is
        stored. */
    method GetOrAdd(key: string, produced: Result<Option<V>, Exn>, options: Option<EntryOptions>)
      returns (r: Result<Option<V>, Exn>, called: bool)
      modifies this
      ensures called <==> (GetOp in failing || old(Stored(key)).None?)
      ensures !called ==> r == Success(old(Stored(key))) && backend == old(backend)
      ensures called ==> r == produced
      ensures called && produced.Success? && SetOp !in failing ==>
        backend == old(backend)[NormalizeKey(cacheName, key) := (produced.value, options.GetOr(defaultOptions))]
      ensures called && (produced.Failure? || SetOp in failing) ==> backend == old(backend)
    {
      var value := Get(key);
      if value.Some? {
        return Success(value), false;
      }
      called := true;
      if produced.Failure? {
        return produced, called;
      }
      Set(key, produced.value, options);
      r := produced;
    }
  }

  /** A second `GetOrAdd` of the same key, right after a first one that
      stored an item, is a hit and does not call the factory again. */
  method GetOrAddTwice<V(==)>(cache: DistributedCache<V>, key: string, item: V, options: Option<EntryOptions>,
                              later: Result<Option<V>, Exn>)
    returns (first: Result<Option<V>, Exn>, second: Result<Option<V>, Exn>, calledAgain: bool)
    requires GetOp !in cache.failing && SetOp !in cache.failing
    modifies cache
    ensures !calledAgain && second == first && first.Success? && first.value.Some?
  {
    var calledFirst;
    first, calledFirst := cache.GetOrAdd(key, Success(Some(item)), options);
    second, calledAgain := cache.GetOrAdd(key, later, options);
  }
}
