/** The session store's limits and its idle/inactive eviction policy. */
module Store {
  import opened Wrappers
  import opened Types

  const MAX_SESSIONS: nat := 10
  /** 30 minutes, in milliseconds. */
  const SESSION_TIMEOUT: int := 30 * 60 * 1000
  const DEFAULT_MODEL: string := "sonnet"

  /** A session survives a sweep at `now` when it is active and has not been idle longer than the timeout. */
  predicate Keep(s: Session, now: int) {
    s.active && now - s.lastActivity <= SESSION_TIMEOUT
  }

  /** The store after cleanupInactiveSessions at time `now`. */
  function Sweep(m: map<string, Session>, now: int): (r: map<string, Session>)
    ensures forall id :: id in r ==> id in m && r[id] == m[id]
    ensures forall id :: id in r ==> r[id].active && now - r[id].lastActivity <= SESSION_TIMEOUT
    ensures forall id :: id in m && m[id].active && now - m[id].lastActivity <= SESSION_TIMEOUT ==> id in r
  {
    map id | id in m && Keep(m[id], now) :: m[id]
  }

  /** The current-session pointer after a sweep: cleared when its session was removed. */
  function SweptCurrent(m: map<string, Session>, current: Option<string>, now: int): (r: Option<string>)
    ensures r.Some? ==> r == current && r.value in Sweep(m, now)
    ensures current.Some? && current.value in Sweep(m, now) ==> r == current
  {
    if current.Some? && current.value !in Sweep(m, now) then None else current
  }

  /** The current session is absent or names a stored, active session. */
  ghost predicate CurrentLive(m: map<string, Session>, current: Option<string>) {
    current.Some? ==> current.value in m && m[current.value].active
  }

  /** The model a new session gets: the one given, unless it is absent or empty. */
  function ModelName(model: Option<string>): (r: string)
    ensures r != ""
    ensures model.Some? && model.value != "" ==> r == model.value
  {
    if model.Some? && model.value != "" then model.value else DEFAULT_MODEL
  }

  lemma {:induction false} SubsetSize<T>(a: set<T>, b: set<T>)
    requires a <= b
    ensures |a| <= |b|
  {
    if a != {} {
      var x :| x in a;
      SubsetSize(a - {x}, b - {x});
    }
  }

  /** A sweep never adds sessions. */
  lemma SweepShrinks(m: map<string, Session>, now: int)
    ensures |Sweep(m, now)| <= |m|
  {
    SubsetSize(Sweep(m, now).Keys, m.Keys);
  }

  /** A sweep keeps the current pointer live. */
  lemma SweepKeepsCurrentLive(m: map<string, Session>, current: Option<string>, now: int)
    ensures CurrentLive(Sweep(m, now), SweptCurrent(m, current, now))
  {
  }

  /** Sweeping again at the same time removes nothing more. */
  lemma SweepIdempotent(m: map<string, Session>, now: int)
    ensures Sweep(Sweep(m, now), now) == Sweep(m, now)
  {
  }

  /**
   * A session whose last activity is more than the timeout before `now` is
   * gone after the sweep, whatever else the store holds.
   */
  lemma IdleSessionEvicted(m: map<string, Session>, current: Option<string>, id: string, now: int)
    requires id in m && now - m[id].lastActivity > SESSION_TIMEOUT
    ensures id !in Sweep(m, now)
    ensures current == Some(id) ==> SweptCurrent(m, current, now) == None
  {
  }
}
