/** The cache module's functions over its mutable maps, proved against AreaCacheSpec. */
module AreaCache {
  import opened Spec = AreaCacheSpec

  class Cache<!K(==), V(==)> {
    var cache: Areas<K, V>
    var enabledGlobal: bool
    var enabledAreas: map<string, bool>
    const fnmatch: Fnmatch

    ghost function Value(): State<K, V>
      reads this
    {
      State(cache, enabledGlobal, enabledAreas)
    }

    constructor (fnmatch: Fnmatch)
      ensures this.fnmatch == fnmatch && Value() == Run<K, V>(fnmatch, [])
    {
      this.fnmatch := fnmatch;
      cache, enabledGlobal, enabledAreas := map[], true, map[];
    }

    method Toggle(area: Option<string>, enabled: bool)
      modifies this
      ensures Value() == Apply(fnmatch, old(Value()), if area.None? then ToggleGlobal(enabled) else ToggleArea(area.value, enabled))
    {
      if area.None? {
        enabledGlobal := enabled;
      } else {
        enabledAreas := enabledAreas[area.value := enabled];
      }
    }

    method Has(area: string, key: K, now: int) returns (found: bool)
      modifies this
      ensures Value() == Apply(fnmatch, old(Value()), Event.Has(area, key, now))
      ensures found == (IsEnabled(old(Value()), area) && Lookup(old(cache), area, key).Some?)
    {
      if !enabledGlobal || (area in enabledAreas && !enabledAreas[area]) {
        return false;
      }
      if area in cache && key in cache[area] {
        cache := cache[area := cache[area][key := cache[area][key].(timestamp := now)]];
        return true;
      }
      return false;
    }

    method Add(area: string, key: K, data: V, now: int)
      modifies this
      ensures Value() == Apply(fnmatch, old(Value()), Event.Add(area, key, data, now))
    {
      if !enabledGlobal || (area in enabledAreas && !enabledAreas[area]) {
        return;
      }
      if area !in cache {
        cache := cache[area := map[]];
      }
      cache := cache[area := cache[area][key := Entry(data, now)]];
    }

    method Get(area: string, key: K, now: int) returns (data: Option<V>)
      modifies this
      ensures Value() == Apply(fnmatch, old(Value()), Event.Get(area, key, now))
      ensures var e := Lookup(old(cache), area, key);
        data == if IsEnabled(old(Value()), area) && e.Some? then Some(e.value.value) else None
    {
      if !enabledGlobal || (area in enabledAreas && !enabledAreas[area]) {
        return None;
      }
      if area in cache && key in cache[area] {
        cache := cache[area := cache[area][key := cache[area][key].(timestamp := now)]];
        return Some(cache[area][key].value);
      }
      return None;
    }

    method Remove(area: string, key: K)
      modifies this
      ensures Value() == Apply(fnmatch, old(Value()), Event.Remove(area, key))
    {
      if !enabledGlobal || (area in enabledAreas && !enabledAreas[area]) {
        return;
      }
      if area in cache {
        cache := cache[area := cache[area] - {key}];
      }
    }

    method Clear(area: string)
      modifies this
      ensures Value() == Apply(fnmatch, old(Value()), Event.Clear(area))
    {
      ApplyClear(fnmatch, Value(), area);
      hide Apply;
      if HasWildcard(area) {
        var keysToRemove := set k | k in cache.Keys && fnmatch(k, area);
        ghost var all := keysToRemove;
        while keysToRemove != {}
          invariant keysToRemove <= all
          invariant cache == old(cache) - (all - keysToRemove)
          invariant enabledGlobal == old(enabledGlobal) && enabledAreas == old(enabledAreas)
          decreases |keysToRemove|
        {
          var k :| k in keysToRemove;
          keysToRemove := keysToRemove - {k};
          cache := cache - {k};
        }
        return;
      }
      cache := cache - {area};
    }

    method ClearAll()
      modifies this
      ensures Value() == Apply(fnmatch, old(Value()), Event.ClearAll)
    {
      cache := map[];
    }

    method TrimCache(area: string, seconds: int, now: int)
      modifies this
      ensures Value() == Apply(fnmatch, old(Value()), Event.Trim(area, seconds, now))
    {
      hide TrimSome, TrimArea, TrimAll, Apply;
      var cutoff := now - seconds;
      var areas := if HasWildcard(area) then set k | k in cache.Keys && fnmatch(k, area) else {area};
      ghost var all, done := areas, {};
      ghost var was := cache;
      TrimNone(was, cutoff);
      while areas != {}
        invariant done == all - areas && areas <= all
        invariant enabledGlobal == old(enabledGlobal) && enabledAreas == old(enabledAreas)
        invariant cache == TrimSome(was, done, cutoff)
        decreases |areas|
      {
        var areaKey :| areaKey in areas;
        TrimOne(was, done, areaKey, cutoff);
        TrimOneArea(areaKey, cutoff);
        areas := areas - {areaKey};
        done := done + {areaKey};
      }
      assert done == all;
      TrimDone(fnmatch, was, all, area, cutoff);
      ApplyTrim(fnmatch, old(Value()), area, seconds, now);
    }

    /** The body of the loop over areas. */
    method TrimOneArea(areaKey: string, cutoff: int)
      modifies `cache
      ensures cache == TrimmedAt(old(cache), areaKey, cutoff)
    {
      if areaKey !in cache || cache[areaKey] == map[] {
        return;
      }
      var keysToRemove := set key | key in cache[areaKey] && cache[areaKey][key].timestamp < cutoff;
      var areaCache := cache[areaKey] - keysToRemove;
      assert areaCache == TrimArea(cache[areaKey], cutoff);
      cache := if areaCache == map[] then cache - {areaKey} else cache[areaKey := areaCache];
    }
  }

  function TrimmedAt<K, V>(cache: Areas<K, V>, a: string, cutoff: int): Areas<K, V> {
    if a in cache && cache[a] != map[] then
      (if TrimArea(cache[a], cutoff) == map[] then cache - {a} else cache[a := TrimArea(cache[a], cutoff)])
    else cache
  }

  /** The areas of `done` trimmed. */
  ghost function TrimSome<K, V>(cache: Areas<K, V>, done: set<string>, cutoff: int): Areas<K, V> {
    map a | a in cache && (a !in done || cache[a] == map[] || TrimArea(cache[a], cutoff) != map[]) ::
      if a in done then TrimArea(cache[a], cutoff) else cache[a]
  }

  lemma ApplyClear<K, V>(fnmatch: Fnmatch, s: State<K, V>, pattern: string)
    ensures Apply(fnmatch, s, Event.Clear(pattern))
      == s.(cache := s.cache - (if HasWildcard(pattern) then set k | k in s.cache.Keys && fnmatch(k, pattern) else {pattern}))
  {
    var removed := if HasWildcard(pattern) then set k | k in s.cache.Keys && fnmatch(k, pattern) else {pattern};
    assert Apply(fnmatch, s, Event.Clear(pattern)).cache == s.cache - removed;
  }

  lemma ApplyTrim<K, V>(fnmatch: Fnmatch, s: State<K, V>, pattern: string, seconds: int, now: int)
    ensures Apply(fnmatch, s, Event.Trim(pattern, seconds, now)) == s.(cache := TrimAll(fnmatch, s.cache, pattern, now - seconds))
  {
  }

  lemma TrimNone<K, V>(cache: Areas<K, V>, cutoff: int)
    ensures TrimSome(cache, {}, cutoff) == cache
  {
  }

  lemma TrimDone<K, V>(fnmatch: Fnmatch, cache: Areas<K, V>, all: set<string>, pattern: string, cutoff: int)
    requires if HasWildcard(pattern) then all == set k | k in cache.Keys && fnmatch(k, pattern) else all == {pattern}
    ensures TrimSome(cache, all, cutoff) == TrimAll(fnmatch, cache, pattern, cutoff)
  {
  }

  lemma TrimOne<K, V>(cache: Areas<K, V>, done: set<string>, a: string, cutoff: int)
    requires a !in done
    ensures TrimSome(cache, done + {a}, cutoff) == TrimmedAt(TrimSome(cache, done, cutoff), a, cutoff)
  {
    var before := TrimSome(cache, done, cutoff);
    if a in before && before[a] == map[] {
      assert TrimArea(before[a], cutoff) == map[];
    }
  }
}
