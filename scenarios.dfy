/**
 * Client walk-throughs of the dispatcher, written against the manager's
 * contracts alone: creating and switching sessions, ending them, and idle
 * eviction.
 */
module Scenarios {
  import opened Wrappers
  import opened Types
  import opened Store
  import opened Manager

  method CreateTwoAndSwitch(t: int) {
    var m := new SessionManager(map[]);
    var r1 := m.StartSession(1, Some("sonnet"), "s1", t);
    assert Sweep(map[], t) == map[];
    assert r1 == Ok("s1") && m.sessions.Keys == {"s1"};
    assert Sweep(m.sessions, t) == m.sessions;
    var r2 := m.StartSession(2, Some("opus"), "s2", t);
    assert r2 == Ok("s2") && m.GetCurrentSession() == Some("s2");
    assert m.sessions["s2"].model == "opus";

    var set1 := m.SetCurrentSession("s1", t + 5);
    assert set1 == Ok(()) && m.current == Some("s1");
    var missing := m.SetCurrentSession("nope", t + 6);
    assert missing == Err(NotFound("nope")) && m.current == Some("s1");
  }

  method EndThenSend(t: int) {
    var m := new SessionManager(map[]);
    var r1 := m.StartSession(1, None, "s1", t);
    assert Sweep(map[], t) == map[];
    assert r1 == Ok("s1") && m.sessions.Keys == {"s1"} && m.current == Some("s1");

    m.EndSession("unknown");
    assert m.sessions.Keys == {"s1"} && m.current == Some("s1");

    m.EndSession("s1");
    assert m.GetSession("s1") == None && m.GetCurrentSession() == None;
    var send := m.SendMessage("s1", [], None, n => t);
    assert send == Err(NotFoundOrInactive("s1"));
  }

  method IdleSessionIsEvicted(t: int) {
    var m := new SessionManager(map[]);
    var r1 := m.StartSession(7, None, "old", t);
    assert Sweep(map[], t) == map[];
    assert r1 == Ok("old") && m.sessions.Keys == {"old"} && m.sessions["old"].model == "sonnet";
    var later := t + SESSION_TIMEOUT + 1;
    IdleSessionEvicted(m.sessions, m.current, "old", later);
    assert Sweep(m.sessions, later) == map[];
    var r2 := m.StartSession(8, Some(""), "new", later);
    assert r2 == Ok("new");
    assert m.GetSession("old") == None;
    assert m.sessions.Keys == {"new"} && m.sessions["new"].model == "sonnet";
    assert m.current == Some("new");
  }
}
