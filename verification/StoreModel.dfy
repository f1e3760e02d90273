/**
 * The store facade as a mathematical value: the cache, its byte counter, the request counters, the
 * connection gauge.
 */
module StoreModel {
  import opened CacheModel

  datatype Store = Store(lru: Lru, bytes: nat, requests: nat, hits: nat, misses: nat, connections: nat)

  datatype Stats = Stats(requests: nat, hits: nat, misses: nat, bytes: nat, connections: nat)

  datatype Request =
    | SetReq(key: Key, value: string, ttl: Option<int>)
    | GetReq(key: Key)
    | DelReq(key: Key)
    | StatsReq
    | KeysReq
    | SweepReq

  /** One line of a KEYS listing. */
  datatype KeyLine = KeyLine(key: Key, value: string, ttl: Option<nat>)

  datatype Reply =
    | SetDone
    | GetDone(value: Option<string>)
    | DelDone(found: bool)
    | StatsDone(stats: Stats)
    | KeysDone(lines: seq<KeyLine>)
    | SweepDone

  /**
   * What an operation learns from its surroundings: a clock reading; for an iteration, the reading
   * made at each key; for KEYS, the entries in hash order and the reading made as each is printed.
   */
  datatype Observed = Observed(now: Time, at: map<Key, Time>, listing: seq<(Key, CacheEntry)>, shown: seq<Time>)

  const FRESH := Store(EMPTY, 0, 0, 0, 0, 0)

  /** The store with another cache, and that cache's size on the byte counter. */
  function WithLru(st: Store, lru: Lru): Store {
    st.(lru := lru, bytes := TotalBytes(lru))
  }

  function Snapshot(st: Store): Stats {
    Stats(st.requests, st.hits, st.misses, st.bytes, st.connections)
  }

  function Lines(listing: seq<(Key, CacheEntry)>, shown: seq<Time>): (r: seq<KeyLine>)
    requires |shown| == |listing|
    ensures |r| == |listing|
    ensures forall i :: 0 <= i < |r| ==>
      r[i] == KeyLine(listing[i].0, listing[i].1.value, listing[i].1.TtlRemaining(shown[i]))
  {
    seq(|listing|, i requires 0 <= i < |listing| =>
      KeyLine(listing[i].0, listing[i].1.value, listing[i].1.TtlRemaining(shown[i])))
  }

  /** The observation is possible in st: an iteration visits each resident key, a listing is exact. */
  ghost predicate Possible(st: Store, req: Request, obs: Observed) {
    match req
    case SweepReq => obs.at.Keys == st.lru.entries.Keys
    case KeysReq =>
      && obs.at.Keys == st.lru.entries.Keys
      && Lists(obs.listing, Live(st.lru, obs.at))
      && |obs.shown| == |obs.listing|
    case _ => true
  }

  function SetStore(st: Store, capacity: nat, key: Key, value: string, ttl: Option<int>, now: Time): Store
    requires capacity > 0
  {
    WithLru(st, Set(st.lru, capacity, key, value, ttl, now)).(requests := st.requests + 1)
  }

  function GetStore(st: Store, key: Key, now: Time): (Store, Option<string>) {
    var (lru, value) := Get(st.lru, key, now);
    (WithLru(st, lru).(requests := st.requests + 1, hits := st.hits + (if value.Some? then 1 else 0),
                       misses := st.misses + (if value.Some? then 0 else 1)), value)
  }

  /** Counting a lookup and its outcome, with the cache and its byte counter as the lookup left them. */
  lemma LookupIsGetStore(st: Store, key: Key, now: Time, after: Store, value: Option<string>)
    requires (after.lru, value) == Get(st.lru, key, now) && BytesRight(after)
    requires after.requests == st.requests + 1 && after.connections == st.connections
    requires after.hits == st.hits + (if value.Some? then 1 else 0)
    requires after.misses == st.misses + (if value.Some? then 0 else 1)
    ensures (after, value) == GetStore(st, key, now)
  {
  }

  function DelStore(st: Store, key: Key): (Store, bool) {
    var (lru, found) := Del(st.lru, key);
    (WithLru(st, lru).(requests := st.requests + 1), found)
  }

  /** The effect of one request executed alone, and its reply. */
  ghost function Apply(st: Store, capacity: nat, req: Request, obs: Observed): (Store, Reply)
    requires capacity > 0 && Possible(st, req, obs)
  {
    match req
    case SetReq(key, value, ttl) => (SetStore(st, capacity, key, value, ttl, obs.now), SetDone)
    case GetReq(key) => var (after, value) := GetStore(st, key, obs.now); (after, GetDone(value))
    case DelReq(key) => var (after, found) := DelStore(st, key); (after, DelDone(found))
    case StatsReq => (st, StatsDone(Snapshot(st)))
    case KeysReq => (st, KeysDone(Lines(obs.listing, obs.shown)))
    case SweepReq => (WithLru(st, Sweep(st.lru, obs.at)), SweepDone)
  }

  /** decrement_connections stops at zero. */
  function Decrement(n: nat): nat {
    if n > 0 then n - 1 else n
  }

  /** The byte counter is the size of what is resident. */
  predicate BytesRight(st: Store) {
    st.bytes == TotalBytes(st.lru)
  }

  lemma ApplyKeepsStamps(st: Store, capacity: nat, req: Request, obs: Observed)
    requires capacity > 0 && Possible(st, req, obs) && StampsFit(st.lru)
    ensures StampsFit(Apply(st, capacity, req, obs).0.lru)
  {
  }

  lemma ApplyKeepsWellFormed(st: Store, capacity: nat, req: Request, obs: Observed)
    requires capacity > 0 && Possible(st, req, obs) && WellFormed(st.lru, capacity)
    ensures WellFormed(Apply(st, capacity, req, obs).0.lru, capacity)
    ensures BytesRight(st) ==> BytesRight(Apply(st, capacity, req, obs).0)
  {
    match req
    case SetReq(key, value, ttl) => SetKeepsWellFormed(st.lru, capacity, key, value, ttl, obs.now);
    case GetReq(key) => GetKeepsWellFormed(st.lru, capacity, key, obs.now);
    case DelReq(key) => OnlyKeepsWellFormed(st.lru, capacity, st.lru.entries.Keys - {key});
    case SweepReq => OnlyKeepsWellFormed(st.lru, capacity, st.lru.entries.Keys - Expired(st.lru, obs.at));
    case _ =>
  }
}
