/** `DictionaryExtensions`: typed and defaulted reads of a dictionary, and
    `GetOrAdd`, which inserts into the dictionary in place. */
module DictionaryExtensions {
  import opened Wrappers

  /** `TryGetValue<T>(key, out value)` on an `IDictionary<string, object>`:
      `isT` is the `valueObj is T` test with its cast (false for null). */
  function TryGetTyped<O, T>(dictionary: map<string, O>, key: string, isT: O -> Option<T>, default: T)
    : (r: (bool, T))
    ensures r.0 <==> key in dictionary && isT(dictionary[key]).Some?
    ensures r.0 ==> r.1 == isT(dictionary[key]).value
    ensures !r.0 ==> r.1 == default
  {
    if key in dictionary && isT(dictionary[key]).Some? then (true, isT(dictionary[key]).value)
    else (false, default)
  }

  /** A mutable `Dictionary<TKey, TValue>`. */
  class Dictionary<K(==), V> {
    var contents: map<K, V>

    constructor (initial: map<K, V>)
      ensures contents == initial
    {
      contents := initial;
    }

    /** `GetOr(key, otherwise)`. */
    function GetOr(key: K, otherwise: V): (r: V)
      reads this
      ensures key in contents ==> r == contents[key]
      ensures key !in contents ==> r == otherwise
    {
      if key in contents then contents[key] else otherwise
    }

    /** `GetOrDefault(key)`, every overload: `GetOr` with `default(TValue)`,
        which the caller supplies. */
    function GetOrDefault(key: K, default: V): (r: V)
      reads this
      ensures key in contents ==> r == contents[key]
      ensures key !in contents ==> r == default
    {
      GetOr(key, default)
    }

    /** `GetOrAdd(key, factory)`: a present key keeps its value and the
        dictionary; an absent key gets `factory(key)`, nothing else changes. */
    method GetOrAdd(key: K, factory: K -> V) returns (v: V)
      modifies this
      ensures key in old(contents) ==> v == old(contents)[key] && contents == old(contents)
      ensures key !in old(contents) ==> v == factory(key) && contents == old(contents)[key := v]
      ensures key in contents && contents[key] == v
    {
      if key in contents {
        return contents[key];
      }
      v := factory(key);
      contents := contents[key := v];
    }

    /** `GetOrAdd(key, () => value)`: the `Func<TKey, TValue>` form with the key ignored. */
    method GetOrAddValue(key: K, factory: () -> V) returns (v: V)
      modifies this
      ensures key in old(contents) ==> v == old(contents)[key] && contents == old(contents)
      ensures key !in old(contents) ==> v == factory() && contents == old(contents)[key := v]
    {
      v := GetOrAdd(key, k => factory());
    }
  }

  /** After `GetOrAdd`, reading the key gives what `GetOrAdd` returned, and a
      second `GetOrAdd` returns the same value and changes nothing. */
  method GetOrAddTwice<K(==), V>(d: Dictionary<K, V>, key: K, f: K -> V, g: K -> V, default: V)
    returns (first: V, second: V)
    modifies d
    ensures first == second
    ensures d.GetOrDefault(key, default) == first
    ensures key in old(d.contents) ==> first == old(d.contents)[key]
  {
    first := d.GetOrAdd(key, f);
    second := d.GetOrAdd(key, g);
  }
}
