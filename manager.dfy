/**
 * The dispatcher's session manager: the store of sessions, the current
 * session pointer, and the display buffers the dispatcher writes to.
 */
module Manager {
  import opened Wrappers
  import opened Types
  import opened Store
  import opened Turn

  datatype SessionError =
    | MaxSessionsReached
    | NotFoundOrInactive(id: string)
    | NotFound(id: string)
    | Inactive(id: string)

  class SessionManager {
    var sessions: map<string, Session>
    var current: Option<string>
    /** The display buffers, by buffer number, as the dispatcher's writes leave them. */
    var buffers: map<int, seq<string>>

    /** The current pointer is live, and the store never holds more than MAX_SESSIONS sessions. */
    ghost predicate Valid()
      reads this
    {
      CurrentLive(sessions, current) && |sessions| <= MAX_SESSIONS
    }

    /** The lines buffer `bufnr` shows; a buffer never written reads as empty. */
    function Lines(bufnr: int): seq<string>
      reads this
    {
      if bufnr in buffers then buffers[bufnr] else []
    }

    constructor (buffers: map<int, seq<string>>)
      ensures Valid()
      ensures sessions == map[] && current == None && this.buffers == buffers
    {
      sessions := map[];
      current := None;
      this.buffers := buffers;
    }

    /** cleanupInactiveSessions: one pass over the store deleting inactive and idle sessions. */
    method CleanupInactiveSessions(now: int)
      requires Valid()
      modifies this
      ensures Valid()
      ensures sessions == Sweep(old(sessions), now)
      ensures current == SweptCurrent(old(sessions), old(current), now)
      ensures buffers == old(buffers)
    {
      ghost var before := sessions;
      var ids := sessions.Keys;
      while ids != {}
        invariant ids <= before.Keys
        invariant sessions == map id | id in before && (id in ids || Keep(before[id], now)) :: before[id]
        invariant current == if old(current).Some? && old(current).value !in sessions then None else old(current)
        invariant buffers == old(buffers)
        decreases ids
      {
        var id :| id in ids;
        var session := sessions[id];
        if !session.active || now - session.lastActivity > SESSION_TIMEOUT {
          sessions := sessions - {id};
          if current == Some(id) {
            current := None;
          }
        }
        ids := ids - {id};
      }
      assert sessions == Sweep(before, now);
      SweepShrinks(before, now);
    }

    /**
     * startSession: sweep, refuse when the store is still full, otherwise
     * insert a fresh active session and make it current. `id` is the fresh
     * random identifier and `now` the clock reading.
     */
    method StartSession(bufnr: int, model: Option<string>, id: string, now: int) returns (r: Result<string, SessionError>)
      requires Valid()
      requires id !in sessions
      modifies this
      ensures Valid()
      ensures buffers == old(buffers)
      ensures var swept := Sweep(old(sessions), now);
        if |swept| >= MAX_SESSIONS then
          && r == Err(MaxSessionsReached)
          && sessions == swept
          && current == SweptCurrent(old(sessions), old(current), now)
        else
          && r == Ok(id)
          && sessions == swept[id := Session(id, ModelName(model), bufnr, [], true, now)]
          && current == Some(id)
    {
      CleanupInactiveSessions(now);
      if |sessions| >= MAX_SESSIONS {
        return Err(MaxSessionsReached);
      }
      var session := Session(id, ModelName(model), bufnr, [], true, now);
      sessions := sessions[id := session];
      current := Some(id);
      r := Ok(id);
    }

    /**
     * sendMessage: refuse a missing or inactive session before writing
     * anything; otherwise refresh its activity time, run the turn over the
     * stream's events (and the failure it ended with, if any) on the
     * session's buffer, and store the assistant messages. A stream failure
     * is shown in the buffer, never returned.
     */
    method SendMessage(id: string, events: seq<StreamMessage>, failure: Option<string>, clock: nat -> int)
      returns (r: Result<(), SessionError>)
      requires Valid()
      modifies this
      ensures Valid()
      ensures current == old(current)
      ensures id !in old(sessions) || !old(sessions)[id].active ==>
        r == Err(NotFoundOrInactive(id)) && sessions == old(sessions) && buffers == old(buffers)
      ensures id in old(sessions) && old(sessions)[id].active ==>
        var s := old(sessions)[id];
        var out := TurnSpec(old(Lines(s.bufnr)), events, failure, clock);
        && r == Ok(())
        && sessions == old(sessions)[id := s.(lastActivity := clock(0), messages := s.messages + out.messages)]
        && buffers == old(buffers)[s.bufnr := out.sink]
    {
      if id !in sessions || !sessions[id].active {
        return Err(NotFoundOrInactive(id));
      }
      var session := sessions[id];
      session := session.(lastActivity := clock(0));
      sessions := sessions[id := session];
      var out := RunTurn(Lines(session.bufnr), events, failure, clock);
      buffers := buffers[session.bufnr := out.sink];
      sessions := sessions[id := session.(messages := session.messages + out.messages)];
      r := Ok(());
    }

    /** endSession: remove the session if it exists and clear the current pointer if it named it. */
    method EndSession(id: string)
      requires Valid()
      modifies this
      ensures Valid()
      ensures sessions == old(sessions) - {id}
      ensures current == if old(current) == Some(id) then None else old(current)
      ensures id !in old(sessions) ==> sessions == old(sessions) && current == old(current)
      ensures buffers == old(buffers)
    {
      if id in sessions {
        sessions := sessions - {id};
        if current == Some(id) {
          current := None;
        }
      }
    }

    /** listSessions: every stored id, each once, in no particular order. */
    method ListSessions() returns (ids: seq<string>)
      ensures forall id :: id in ids <==> id in sessions
      ensures forall i, j :: 0 <= i < j < |ids| ==> ids[i] != ids[j]
      ensures |ids| == |sessions|
    {
      ids := [];
      var rest := sessions.Keys;
      while rest != {}
        invariant rest <= sessions.Keys
        invariant forall id :: id in ids <==> id in sessions && id !in rest
        invariant forall i, j :: 0 <= i < j < |ids| ==> ids[i] != ids[j]
        invariant |ids| + |rest| == |sessions|
        decreases rest
      {
        var id :| id in rest;
        ids := ids + [id];
        rest := rest - {id};
      }
    }

    /** getSessionInfo and getSession: a pure lookup. */
    function GetSession(id: string): (r: Option<Session>)
      reads this
      ensures r.Some? <==> id in sessions
      ensures r.Some? ==> r.value == sessions[id]
    {
      if id in sessions then Some(sessions[id]) else None
    }

    /** getCurrentSession: absent, or a stored, active session. */
    function GetCurrentSession(): (r: Option<string>)
      requires Valid()
      reads this
      ensures r.Some? ==> r.value in sessions && sessions[r.value].active
    {
      current
    }

    /** setCurrentSession: NotFound and Inactive leave everything as it was. */
    method SetCurrentSession(id: string, now: int) returns (r: Result<(), SessionError>)
      requires Valid()
      modifies this
      ensures Valid()
      ensures buffers == old(buffers)
      ensures id !in old(sessions) ==>
        r == Err(NotFound(id)) && sessions == old(sessions) && current == old(current)
      ensures id in old(sessions) && !old(sessions)[id].active ==>
        r == Err(Inactive(id)) && sessions == old(sessions) && current == old(current)
      ensures id in old(sessions) && old(sessions)[id].active ==>
        && r == Ok(())
        && sessions == old(sessions)[id := old(sessions)[id].(lastActivity := now)]
        && current == Some(id)
    {
      if id !in sessions {
        return Err(NotFound(id));
      }
      var session := sessions[id];
      if !session.active {
        return Err(Inactive(id));
      }
      sessions := sessions[id := session.(lastActivity := now)];
      current := Some(id);
      r := Ok(());
    }

    /** getAllSessions: a copy of the whole store, built one entry at a time. */
    method GetAllSessions() returns (result: map<string, Session>)
      ensures result == sessions
    {
      result := map[];
      var rest := sessions.Keys;
      while rest != {}
        invariant rest <= sessions.Keys
        invariant result == map id | id in sessions && id !in rest :: sessions[id]
        decreases rest
      {
        var id :| id in rest;
        result := result[id := sessions[id]];
        rest := rest - {id};
      }
    }

    /** switchModel: change the model of a live session and announce it in its buffer. */
    method SwitchModel(id: string, model: string, now: int) returns (r: Result<(), SessionError>)
      requires Valid()
      modifies this
      ensures Valid()
      ensures current == old(current)
      ensures id !in old(sessions) || !old(sessions)[id].active ==>
        r == Err(NotFoundOrInactive(id)) && sessions == old(sessions) && buffers == old(buffers)
      ensures id in old(sessions) && old(sessions)[id].active ==>
        var s := old(sessions)[id];
        && r == Ok(())
        && sessions == old(sessions)[id := s.(lastActivity := now, model := model)]
        && buffers == old(buffers)[s.bufnr := old(Lines(s.bufnr)) + ["Switched to model: " + model, ""]]
    {
      if id !in sessions || !sessions[id].active {
        return Err(NotFoundOrInactive(id));
      }
      var session := sessions[id];
      session := session.(lastActivity := now, model := model);
      sessions := sessions[id := session];
      buffers := buffers[session.bufnr := Lines(session.bufnr) + ["Switched to model: " + model, ""]];
      r := Ok(());
    }
  }
}
