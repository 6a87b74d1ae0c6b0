/**
 * GameServer: the registries of game clients and game sessions.
 *
 * Clients are stored under their IP address with no per-address cap;
 * sessions are objects stored under their id. Session ids come from a
 * 32-bit counter that starts at 1.
 */
module GameServer {
  import opened Wrappers
  import opened GameSession
  import BattleNetServer

  type Conn = BattleNetServer.Conn

  /** `m_nextSessionId++` on a `uint32_t`. */
  function NextId(id: uint32): uint32
  {
    (id + 1) % 0x1_0000_0000
  }

  /** Below the top of the range the counter strictly increases, so an id
      is not issued twice until the counter wraps. */
  lemma NextIdIncreases(id: uint32)
    ensures id < 0xFFFF_FFFF ==> NextId(id) == id + 1
    ensures id == 0xFFFF_FFFF ==> NextId(id) == 0
  {
  }

  /** After n creations starting from the initial counter 1, with n below
      2^32 - 1, the issued ids are exactly 1..n, all distinct. */
  function IssuedIds(n: nat): (ids: seq<uint32>)
    requires n < 0xFFFF_FFFF
    ensures |ids| == n
    ensures forall i :: 0 <= i < n ==> ids[i] == i + 1
  {
    if n == 0 then [] else IssuedIds(n - 1) + [CounterAfter(n - 1)]
  }

  /** The value of the counter after n creations. */
  function CounterAfter(n: nat): (c: uint32)
    requires n < 0xFFFF_FFFF
    ensures c == n + 1
  {
    if n == 0 then 1 else NextId(CounterAfter(n - 1))
  }

  lemma IssuedIdsDistinct(n: nat)
    requires n < 0xFFFF_FFFF
    ensures forall i, j :: 0 <= i < j < n ==> IssuedIds(n)[i] < IssuedIds(n)[j]
  {
  }

  class Server {
    var running: bool
    var accepting: bool
    var nextSessionId: uint32
    var clients: map<string, Conn>
    var sessions: map<uint32, Session>

    /** Distinct ids hold distinct session objects, each under its own id. */
    predicate Valid()
      reads this, sessions.Values
    {
      (forall i, j :: i in sessions && j in sessions && i != j ==> sessions[i] != sessions[j]) &&
      (forall i :: i in sessions ==> sessions[i].sessionId == i)
    }

    constructor ()
      ensures Valid()
      ensures !running && !accepting && nextSessionId == 1
      ensures clients == map[] && sessions == map[]
    {
      running := false;
      accepting := false;
      nextSessionId := 1;
      clients := map[];
      sessions := map[];
    }

    function IsRunning(): (r: bool)
      reads this
    {
      running
    }

    method GetClientCount() returns (n: nat)
      ensures n == |clients|
    {
      n := |clients|;
    }

    method GetSessionCount() returns (n: nat)
      ensures n == |sessions|
    {
      n := |sessions|;
    }

    method Run()
      modifies this
      ensures old(running) ==> running && accepting == old(accepting)
      ensures !old(running) ==> running && accepting
      ensures clients == old(clients) && sessions == old(sessions) && nextSessionId == old(nextSessionId)
    {
      if running {
        return;
      }
      running := true;
      StartAccept();
    }

    method StartAccept()
      modifies this
      ensures running == old(running) && accepting == (old(accepting) || running)
      ensures clients == old(clients) && sessions == old(sessions) && nextSessionId == old(nextSessionId)
    {
      if !running {
        return;
      }
      accepting := true;
    }

    /** `shutdown`: nothing on a stopped server; otherwise stops and empties
        both registries. */
    method Shutdown()
      modifies this
      ensures !old(running) ==>
        !running && accepting == old(accepting) && clients == old(clients) && sessions == old(sessions)
      ensures old(running) ==> !running && !accepting && clients == map[] && sessions == map[]
      ensures nextSessionId == old(nextSessionId)
    {
      if !running {
        return;
      }
      running := false;
      accepting := false;
      clients := map[];
      sessions := map[];
    }

    /** `handleAccept`: the client is stored under its address, replacing
        any earlier one; there is no cap. `remoteIp` is None when the address
        cannot be read, which changes nothing. */
    method HandleAccept(remoteIp: Option<string>, client: nat)
      modifies this
      ensures clients == if remoteIp.Some?
        then old(clients)[remoteIp.value := BattleNetServer.Conn(client, remoteIp.value, true)]
        else old(clients)
      ensures running == old(running) && accepting == old(accepting)
      ensures sessions == old(sessions) && nextSessionId == old(nextSessionId)
    {
      if remoteIp.None? {
        return;
      }
      clients := clients[remoteIp.value := BattleNetServer.Conn(client, remoteIp.value, true)];
    }

    /** `createGameSession`: consumes the next id, builds a session and
        registers it only if its initialisation (`initSucceeds`, whose
        implementation is not part of this model) succeeds. */
    method CreateGameSession(initSucceeds: bool) returns (session: Session?)
      requires Valid()
      modifies this
      ensures Valid()
      ensures nextSessionId == NextId(old(nextSessionId))
      ensures session == null <==> !initSucceeds
      ensures session == null ==> sessions == old(sessions)
      ensures session != null ==>
        fresh(session) && session.sessionId == old(nextSessionId) &&
        sessions == old(sessions)[old(nextSessionId) := session] &&
        session.IsEmpty() && session.difficulty == Normal && session.mode == Campaign
      ensures clients == old(clients) && running == old(running) && accepting == old(accepting)
    {
      var sessionId := nextSessionId;
      nextSessionId := NextId(nextSessionId);
      var s := new Session(sessionId);
      if !initSucceeds {
        return null;
      }
      sessions := sessions[sessionId := s];
      return s;
    }

    /** `getGameSession`: the registered session, or null. */
    method GetGameSession(sessionId: uint32) returns (session: Session?)
      ensures sessionId in sessions ==> session == sessions[sessionId]
      ensures sessionId !in sessions ==> session == null
    {
      if sessionId in sessions {
        return sessions[sessionId];
      }
      return null;
    }

    /** `updateSessions`: `update` exactly once on every registered session. */
    method UpdateSessions()
      requires Valid()
      modifies sessions.Values
      ensures forall i :: i in sessions ==> sessions[i].updateCount == old(sessions[i].updateCount) + 1
      ensures forall i :: i in sessions ==>
        sessions[i].clients == old(sessions[i].clients) &&
        sessions[i].difficulty == old(sessions[i].difficulty) && sessions[i].mode == old(sessions[i].mode)
    {
      var remaining := sessions.Keys;
      while remaining != {}
        invariant remaining <= sessions.Keys
        invariant forall i :: i in sessions && i !in remaining ==>
          sessions[i].updateCount == old(sessions[i].updateCount) + 1
        invariant forall i :: i in remaining ==> sessions[i].updateCount == old(sessions[i].updateCount)
        invariant forall i :: i in sessions ==>
          sessions[i].clients == old(sessions[i].clients) &&
          sessions[i].difficulty == old(sessions[i].difficulty) && sessions[i].mode == old(sessions[i].mode)
        decreases |remaining|
      {
        var id :| id in remaining;
        sessions[id].Update();
        remaining := remaining - {id};
      }
    }

    /** `cleanupClientsAndSessions`: drops exactly the disconnected clients
        and the empty sessions. */
    method CleanupClientsAndSessions()
      requires Valid()
      modifies this
      ensures Valid()
      ensures clients == BattleNetServer.Sweep(old(clients))
      ensures sessions == map i | i in old(sessions) && !old(sessions)[i].IsEmpty() :: old(sessions)[i]
      ensures running == old(running) && accepting == old(accepting) && nextSessionId == old(nextSessionId)
    {
      clients := BattleNetServer.RemoveDisconnected(clients);
      sessions := RemoveEmptySessions(sessions);
    }
  }

  /** The collect-then-erase loop over the sessions: gathers the ids of
      empty sessions, then erases each. */
  method RemoveEmptySessions(sessions: map<uint32, Session>) returns (s: map<uint32, Session>)
    ensures s == map i | i in sessions && !sessions[i].IsEmpty() :: sessions[i]
  {
    var emptySessions: seq<uint32> := [];
    var ids := sessions.Keys;
    while ids != {}
      invariant ids <= sessions.Keys
      invariant forall id :: id in emptySessions <==> id in sessions && id !in ids && sessions[id].IsEmpty()
      decreases |ids|
    {
      var id :| id in ids;
      if sessions[id].IsEmpty() {
        emptySessions := emptySessions + [id];
      }
      ids := ids - {id};
    }
    WithoutEmpty(sessions, emptySessions);
    s := sessions;
    var j := 0;
    while j < |emptySessions|
      invariant 0 <= j <= |emptySessions|
      invariant s == Without(sessions, emptySessions[..j])
    {
      EraseNext(sessions, emptySessions, j);
      s := s - {emptySessions[j]};
      j := j + 1;
    }
    assert emptySessions[..j] == emptySessions;
  }

  /** Without exactly the empty sessions, the sessions that have clients. */
  lemma WithoutEmpty(sessions: map<uint32, Session>, ids: seq<uint32>)
    requires forall id :: id in ids <==> id in sessions && sessions[id].IsEmpty()
    ensures Without(sessions, ids) == map i | i in sessions && !sessions[i].IsEmpty() :: sessions[i]
  {
  }

  /** `sessions` without the ids listed in `ids`. */
  function Without(sessions: map<uint32, Session>, ids: seq<uint32>): map<uint32, Session>
  {
    map id | id in sessions && id !in ids :: sessions[id]
  }

  lemma EraseNext(sessions: map<uint32, Session>, ids: seq<uint32>, j: nat)
    requires j < |ids|
    ensures Without(sessions, ids[..j]) - {ids[j]} == Without(sessions, ids[..j + 1])
  {
    assert ids[..j + 1] == ids[..j] + [ids[j]];
  }

  /** The sweep keeps a session exactly when it still has clients. */
  lemma SessionSweepExact(old_sessions: map<uint32, Session>, new_sessions: map<uint32, Session>)
    requires new_sessions == map i | i in old_sessions && !old_sessions[i].IsEmpty() :: old_sessions[i]
    ensures forall i :: i in new_sessions <==> i in old_sessions && old_sessions[i].clients != map[]
  {
  }
}
