/** What the area cache holds after a history of calls, and what each call does to it. */
module AreaCacheSpec {
  datatype Option<+T> = None | Some(value: T)

  datatype Entry<V> = Entry(value: V, timestamp: int)

  type Areas<!K, V> = map<string, map<K, Entry<V>>>

  /** `now` is the clock the call reads. */
  datatype Event<K, V> =
    | Add(area: string, key: K, data: V, now: int)
    | Get(area: string, key: K, now: int)
    | Has(area: string, key: K, now: int)
    | Remove(area: string, key: K)
    | Clear(pattern: string)
    | Trim(pattern: string, seconds: int, now: int)
    | ClearAll
    | ToggleGlobal(enabled: bool)
    | ToggleArea(area: string, enabled: bool)

  datatype State<!K, V> = State(cache: Areas<K, V>, enabledGlobal: bool, enabledAreas: map<string, bool>)

  type Fnmatch = (string, string) -> bool

  predicate IsEnabled<K, V>(s: State<K, V>, area: string) {
    s.enabledGlobal && (area in s.enabledAreas ==> s.enabledAreas[area])
  }

  predicate HasWildcard(pattern: string) {
    exists i :: 0 <= i < |pattern| && (pattern[i] == '*' || pattern[i] == '?' || pattern[i] == '[')
  }

  predicate AreaMatches(fnmatch: Fnmatch, area: string, pattern: string) {
    if HasWildcard(pattern) then fnmatch(area, pattern) else area == pattern
  }

  function Lookup<K, V>(cache: Areas<K, V>, area: string, key: K): Option<Entry<V>> {
    if area in cache && key in cache[area] then Some(cache[area][key]) else None
  }

  function Put<K, V>(cache: Areas<K, V>, area: string, key: K, e: Entry<V>): Areas<K, V> {
    cache[area := (if area in cache then cache[area] else map[])[key := e]]
  }

  function Touch<K, V>(cache: Areas<K, V>, area: string, key: K, now: int): Areas<K, V> {
    var e := Lookup(cache, area, key);
    if e.None? then cache else Put(cache, area, key, e.value.(timestamp := now))
  }

  /** The entries of one area that a trim keeps. */
  function TrimArea<K, V>(entries: map<K, Entry<V>>, cutoff: int): map<K, Entry<V>> {
    map k | k in entries && entries[k].timestamp >= cutoff :: entries[k]
  }

  /** An area whose last entry a trim evicts goes too; an area that was empty before stays. */
  function TrimAll<K, V>(fnmatch: Fnmatch, cache: Areas<K, V>, pattern: string, cutoff: int): Areas<K, V> {
    map a | a in cache && (!AreaMatches(fnmatch, a, pattern) || cache[a] == map[] || TrimArea(cache[a], cutoff) != map[]) ::
      if AreaMatches(fnmatch, a, pattern) then TrimArea(cache[a], cutoff) else cache[a]
  }

  function Apply<K, V>(fnmatch: Fnmatch, s: State<K, V>, e: Event<K, V>): State<K, V> {
    match e
    case Add(a, k, v, now) => if IsEnabled(s, a) then s.(cache := Put(s.cache, a, k, Entry(v, now))) else s
    case Get(a, k, now) => if IsEnabled(s, a) then s.(cache := Touch(s.cache, a, k, now)) else s
    case Has(a, k, now) => if IsEnabled(s, a) then s.(cache := Touch(s.cache, a, k, now)) else s
    case Remove(a, k) => if IsEnabled(s, a) && a in s.cache then s.(cache := s.cache[a := s.cache[a] - {k}]) else s
    case Clear(p) => s.(cache := map a | a in s.cache && !AreaMatches(fnmatch, a, p) :: s.cache[a])
    case Trim(p, seconds, now) => s.(cache := TrimAll(fnmatch, s.cache, p, now - seconds))
    case ClearAll => s.(cache := map[])
    case ToggleGlobal(b) => s.(enabledGlobal := b)
    case ToggleArea(a, b) => s.(enabledAreas := s.enabledAreas[a := b])
  }

  function Run<K, V>(fnmatch: Fnmatch, h: seq<Event<K, V>>): State<K, V> {
    if h == [] then State(map[], true, map[]) else Apply(fnmatch, Run(fnmatch, h[..|h| - 1]), h[|h| - 1])
  }

  // ---------- The history alone ----------

  predicate EnabledAfter<K, V>(h: seq<Event<K, V>>, area: string) {
    GlobalAfter(h) && AreaAfter(h, area)
  }

  predicate GlobalAfter<K, V>(h: seq<Event<K, V>>) {
    if h == [] then true
    else match h[|h| - 1]
      case ToggleGlobal(b) => b
      case _ => GlobalAfter(h[..|h| - 1])
  }

  predicate AreaAfter<K, V>(h: seq<Event<K, V>>, area: string) {
    if h == [] then true
    else match h[|h| - 1]
      case ToggleArea(a, b) => if a == area then b else AreaAfter(h[..|h| - 1], area)
      case _ => AreaAfter(h[..|h| - 1], area)
  }

  predicate IsAdd<K(==), V>(h: seq<Event<K, V>>, i: nat, area: string, key: K)
    requires i < |h|
  {
    h[i].Add? && h[i].area == area && h[i].key == key && EnabledAfter(h[..i], area)
  }

  /** The `i`th call reads or writes the entry, while its area is enabled. */
  predicate IsTouch<K(==), V>(h: seq<Event<K, V>>, i: nat, area: string, key: K)
    requires i < |h|
  {
    (h[i].Add? || h[i].Get? || h[i].Has?) && h[i].area == area && h[i].key == key && EnabledAfter(h[..i], area)
  }

  /** When the entry was last touched; no entry is needed for this. */
  function LastTouch<K(==), V>(h: seq<Event<K, V>>, area: string, key: K): Option<int> {
    if h == [] then None
    else if IsTouch(h, |h| - 1, area, key) then Some(h[|h| - 1].now)
    else LastTouch(h[..|h| - 1], area, key)
  }

  /** The `i`th call takes the entry away, if it is there. */
  predicate Evicts<K(==), V>(fnmatch: Fnmatch, h: seq<Event<K, V>>, i: nat, area: string, key: K)
    requires i < |h|
  {
    match h[i]
    case Remove(a, k) => a == area && k == key && EnabledAfter(h[..i], area)
    case Clear(p) => AreaMatches(fnmatch, area, p)
    case ClearAll => true
    case Trim(p, seconds, now) =>
      var touched := LastTouch(h[..i], area, key);
      AreaMatches(fnmatch, area, p) && touched.Some? && touched.value < now - seconds
    case _ => false
  }

  /** The `i`th call is the last effective add of the entry, and nothing took it away since. */
  ghost predicate IsLiveAdd<K, V>(fnmatch: Fnmatch, h: seq<Event<K, V>>, i: int, area: string, key: K) {
    0 <= i < |h| && IsAdd(h, i, area, key)
    && forall j :: i < j < |h| ==> !IsAdd(h, j, area, key) && !Evicts(fnmatch, h, j, area, key)
  }
}
