/** The cache agrees with its history: what is found is what was last added and not taken away since. */
module AreaCacheHistory {
  import opened AreaCacheSpec

  // ---------- The state refines a flat timed map kept by the history ----------

  lemma {:induction false} SwitchesAgree<K, V>(fnmatch: Fnmatch, h: seq<Event<K, V>>, area: string)
    ensures Run(fnmatch, h).enabledGlobal == GlobalAfter(h)
    ensures area in Run(fnmatch, h).enabledAreas ==> Run(fnmatch, h).enabledAreas[area] == AreaAfter(h, area)
    ensures area !in Run(fnmatch, h).enabledAreas ==> AreaAfter(h, area)
  {
    if h != [] {
      SwitchesAgree(fnmatch, h[..|h| - 1], area);
    }
  }

  lemma EnabledAgrees<K, V>(fnmatch: Fnmatch, h: seq<Event<K, V>>, area: string)
    ensures IsEnabled(Run(fnmatch, h), area) == EnabledAfter(h, area)
  {
    SwitchesAgree(fnmatch, h, area);
  }

  /** One entry after one call, from the entry before it. */
  function Next<K(==), V>(fnmatch: Fnmatch, before: Option<Entry<V>>, enabled: bool, e: Event<K, V>, area: string, key: K): Option<Entry<V>> {
    match e
    case Add(a, k, v, now) => if a == area && k == key && enabled then Some(Entry(v, now)) else before
    case Get(a, k, now) => if a == area && k == key && enabled && before.Some? then Some(before.value.(timestamp := now)) else before
    case Has(a, k, now) => if a == area && k == key && enabled && before.Some? then Some(before.value.(timestamp := now)) else before
    case Remove(a, k) => if a == area && k == key && enabled then None else before
    case Clear(p) => if AreaMatches(fnmatch, area, p) then None else before
    case Trim(p, seconds, now) =>
      if AreaMatches(fnmatch, area, p) && before.Some? && before.value.timestamp < now - seconds then None else before
    case ClearAll => None
    case _ => before
  }

  /** Every call acts on each entry as if it were alone: a trim evicts exactly the matching entries that were
      last touched too long ago, and calls on a disabled area change nothing. */
  lemma ApplyIsNext<K, V>(fnmatch: Fnmatch, s: State<K, V>, e: Event<K, V>, area: string, key: K)
    ensures Lookup(Apply(fnmatch, s, e).cache, area, key)
      == Next(fnmatch, Lookup(s.cache, area, key), if e.Add? || e.Get? || e.Has? || e.Remove? then IsEnabled(s, e.area) else true, e, area, key)
  {
    if e.Trim? && area in s.cache {
      var cutoff := e.now - e.seconds;
      if key in s.cache[area] && s.cache[area][key].timestamp >= cutoff {
        assert key in TrimArea(s.cache[area], cutoff);
      }
    }
  }

  /** A live entry's timestamp is its last touch. */
  lemma {:induction false} TimestampIsLastTouch<K, V>(fnmatch: Fnmatch, h: seq<Event<K, V>>, area: string, key: K)
    ensures var e := Lookup(Run(fnmatch, h).cache, area, key); e.Some? ==> LastTouch(h, area, key) == Some(e.value.timestamp)
  {
    if h != [] {
      var init, last := h[..|h| - 1], h[|h| - 1];
      TimestampIsLastTouch(fnmatch, init, area, key);
      ApplyIsNext(fnmatch, Run(fnmatch, init), last, area, key);
      EnabledAgrees(fnmatch, init, area);
    }
  }

  /** Looked up after any history: the value of the live add, if there is one. */
  lemma {:induction false} LookupIsLiveAdd<K, V>(fnmatch: Fnmatch, h: seq<Event<K, V>>, area: string, key: K, v: V)
    ensures var e := Lookup(Run(fnmatch, h).cache, area, key);
      (e.Some? && e.value.value == v) <==> exists i :: IsLiveAdd(fnmatch, h, i, area, key) && h[i].data == v
    decreases |h|, 0
  {
    hide Apply, Evicts, EnabledAfter, LastTouch;
    if h != [] {
      var n := |h| - 1;
      var before, after := Lookup(Run(fnmatch, h[..n]).cache, area, key), Lookup(Run(fnmatch, h).cache, area, key);
      LookupIsLiveAdd(fnmatch, h[..n], area, key, v);
      if IsAdd(h, n, area, key) {
        LookupAfterAdd(fnmatch, h, area, key);
        assert IsLiveAdd(fnmatch, h, n, area, key);
        assert forall i :: IsLiveAdd(fnmatch, h, i, area, key) ==> i == n;
      } else {
        LookupAfterOther(fnmatch, h, area, key);
        LiveAddStep(fnmatch, h, area, key);
        if before.None? { NoLiveAdd(fnmatch, h[..n], area, key); }
      }
    }
  }

  lemma LookupAfterAdd<K, V>(fnmatch: Fnmatch, h: seq<Event<K, V>>, area: string, key: K)
    requires h != [] && IsAdd(h, |h| - 1, area, key)
    ensures var e := Lookup(Run(fnmatch, h).cache, area, key); e.Some? && e.value.value == h[|h| - 1].data
  {
    var init, last := h[..|h| - 1], h[|h| - 1];
    ApplyIsNext(fnmatch, Run(fnmatch, init), last, area, key);
    EnabledAgrees(fnmatch, init, area);
  }

  /** A call that is not an add of the entry keeps its value, unless it evicts it. */
  lemma LookupAfterOther<K, V>(fnmatch: Fnmatch, h: seq<Event<K, V>>, area: string, key: K)
    requires h != [] && !IsAdd(h, |h| - 1, area, key)
    ensures var before, after := Lookup(Run(fnmatch, h[..|h| - 1]).cache, area, key), Lookup(Run(fnmatch, h).cache, area, key);
      && after.Some? == (before.Some? && !Evicts(fnmatch, h, |h| - 1, area, key))
      && (after.Some? ==> after.value.value == before.value.value)
  {
    var init, last := h[..|h| - 1], h[|h| - 1];
    hide Apply, Lookup, LastTouch;
    ApplyIsNext(fnmatch, Run(fnmatch, init), last, area, key);
    EnabledAgrees(fnmatch, init, area);
    TimestampIsLastTouch(fnmatch, init, area, key);
  }

  /** A call that is not an add of the entry keeps its live add, or evicts it. */
  lemma LiveAddStep<K, V>(fnmatch: Fnmatch, h: seq<Event<K, V>>, area: string, key: K)
    requires h != [] && !IsAdd(h, |h| - 1, area, key)
    ensures forall i ::
      IsLiveAdd(fnmatch, h, i, area, key)
      <==> IsLiveAdd(fnmatch, h[..|h| - 1], i, area, key) && !Evicts(fnmatch, h, |h| - 1, area, key)
  {
    hide EnabledAfter, LastTouch;
    var n := |h| - 1;
    var init := h[..n];
    forall j | 0 <= j < n
      ensures IsAdd(init, j, area, key) == IsAdd(h, j, area, key)
      ensures Evicts(fnmatch, init, j, area, key) == Evicts(fnmatch, h, j, area, key)
    {
      assert init[j] == h[j] && init[..j] == h[..j];
    }
  }

  lemma NoLiveAdd<K, V>(fnmatch: Fnmatch, h: seq<Event<K, V>>, area: string, key: K)
    requires Lookup(Run(fnmatch, h).cache, area, key).None?
    ensures forall i :: !IsLiveAdd(fnmatch, h, i, area, key)
    decreases |h|, 1
  {
    forall i ensures !IsLiveAdd(fnmatch, h, i, area, key) {
      if 0 <= i < |h| && h[i].Add? {
        LookupIsLiveAdd(fnmatch, h, area, key, h[i].data);
      }
    }
  }

  /** `get(area, key)` after any history returns `v` if and only if the area is enabled and `v` was the last
      effective add that nothing took away since. */
  lemma GetReturnsLastAdd<K, V>(fnmatch: Fnmatch, h: seq<Event<K, V>>, area: string, key: K, v: V)
    ensures var s := Run(fnmatch, h); var e := Lookup(s.cache, area, key);
      (IsEnabled(s, area) && e.Some? && e.value.value == v)
      <==> EnabledAfter(h, area) && exists i :: IsLiveAdd(fnmatch, h, i, area, key) && h[i].data == v
  {
    EnabledAgrees(fnmatch, h, area);
    LookupIsLiveAdd(fnmatch, h, area, key, v);
  }

  // ---------- Which areas a pattern names ----------

  /** A pattern with `*`, `?` or `[` names the areas that `fnmatch` says; any other names itself. Clearing it removes
      exactly their entries. */
  lemma ClearedExactly<K, V>(fnmatch: Fnmatch, s: State<K, V>, pattern: string, area: string, key: K)
    ensures Lookup(Apply(fnmatch, s, Event.Clear(pattern)).cache, area, key)
      == if (if '*' in pattern || '?' in pattern || '[' in pattern then fnmatch(area, pattern) else area == pattern) then None
         else Lookup(s.cache, area, key)
  {
    WildcardExactly(pattern);
  }

  /** Trimming it removes exactly those of their entries that are older than the cutoff. */
  lemma TrimmedExactly<K, V>(fnmatch: Fnmatch, s: State<K, V>, pattern: string, seconds: int, now: int, area: string, key: K)
    ensures var e := Lookup(s.cache, area, key);
      Lookup(Apply(fnmatch, s, Event.Trim(pattern, seconds, now)).cache, area, key)
      == if e.Some? && e.value.timestamp < now - seconds
            && (if '*' in pattern || '?' in pattern || '[' in pattern then fnmatch(area, pattern) else area == pattern) then None
         else e
  {
    WildcardExactly(pattern);
    if area in s.cache && TrimArea(s.cache[area], now - seconds) == map[] && key in s.cache[area] {
      assert key !in TrimArea(s.cache[area], now - seconds);
    }
  }

  lemma WildcardExactly(pattern: string)
    ensures HasWildcard(pattern) <==> '*' in pattern || '?' in pattern || '[' in pattern
  {
  }
}
