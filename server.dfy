/**
 * Server: the top-level server that owns the Battle.net server, the game
 * server and the REST API server, and initialises, starts and stops them in
 * a fixed order.
 *
 * The components are abstract: their `init` results are parameters, and
 * the calls made on them are recorded, in order, in `calls`. The threads
 * are the list of components a thread was started for; the main loop,
 * which only sleeps while the server runs, is left out.
 */
module Server {
  datatype Component = BattleNet | Game | RestApi

  datatype Call = Init(c: Component) | Run(c: Component) | Shutdown(c: Component)

  /** The order in which components are initialised and started. */
  const StartOrder: seq<Component> := [BattleNet, Game, RestApi]

  function Reverse<T>(s: seq<T>): (r: seq<T>)
    ensures |r| == |s| && forall i :: 0 <= i < |s| ==> r[i] == s[|s| - 1 - i]
  {
    if s == [] then [] else Reverse(s[1..]) + [s[0]]
  }

  function Calls(f: Component -> Call, cs: seq<Component>): (r: seq<Call>)
    ensures |r| == |cs| && forall i :: 0 <= i < |cs| ==> r[i] == f(cs[i])
  {
    if cs == [] then [] else [f(cs[0])] + Calls(f, cs[1..])
  }

  /** The init calls made when the components report `results`, in start
      order: every component up to and including the first failure. */
  function InitCalls(results: seq<bool>): (r: seq<Call>)
    requires |results| <= 3
  {
    if results == [] then []
    else [Init(StartOrder[3 - |results|])] + (if results[0] then InitCalls(results[1..]) else [])
  }

  /** The components are initialised in start order, a failure stops the
      sequence, and the components after it are never initialised. */
  lemma {:induction false} InitStopsAtFirstFailure(bn: bool, game: bool, rest: bool)
    ensures InitCalls([bn, game, rest]) ==
      if !bn then [Init(BattleNet)]
      else if !game then [Init(BattleNet), Init(Game)]
      else [Init(BattleNet), Init(Game), Init(RestApi)]
  {
    assert [bn, game, rest][1..] == [game, rest];
    assert [game, rest][1..] == [rest];
    assert [rest][1..] == [];
    assert InitCalls([rest]) == [Init(RestApi)] + (if rest then InitCalls([]) else []);
    assert InitCalls([game, rest]) == [Init(Game)] + (if game then InitCalls([rest]) else []);
  }

  /** The shutdown order is the start order reversed. */
  lemma ShutdownReversesStart()
    ensures Reverse(StartOrder) == [RestApi, Game, BattleNet]
  {
  }

  class TopServer {
    var running: bool
    var serverThreads: seq<Component>
    var calls: seq<Call>

    constructor ()
      ensures !running && serverThreads == [] && calls == []
    {
      running := false;
      serverThreads := [];
      calls := [];
    }

    function IsRunning(): (r: bool)
      reads this
    {
      running
    }

    /** `init`: Battle.net, then game, then REST; false at the first
        component that fails, true when all three succeed. */
    method Init(battleNetOk: bool, gameOk: bool, restOk: bool) returns (ok: bool)
      modifies this
      ensures ok <==> battleNetOk && gameOk && restOk
      ensures calls == old(calls) + InitCalls([battleNetOk, gameOk, restOk])
      ensures running == old(running) && serverThreads == old(serverThreads)
    {
      InitStopsAtFirstFailure(battleNetOk, gameOk, restOk);
      calls := calls + [Call.Init(BattleNet)];
      if !battleNetOk {
        return false;
      }
      calls := calls + [Call.Init(Game)];
      if !gameOk {
        return false;
      }
      calls := calls + [Call.Init(RestApi)];
      if !restOk {
        return false;
      }
      return true;
    }

    /** `run`: an already running server starts nothing; otherwise one
        thread per component, in start order, runs that component. */
    method Run()
      modifies this
      ensures old(running) ==> running && serverThreads == old(serverThreads) && calls == old(calls)
      ensures !old(running) ==>
        running && serverThreads == old(serverThreads) + StartOrder &&
        calls == old(calls) + Calls(c => Call.Run(c), StartOrder)
    {
      if running {
        return;
      }
      running := true;
      serverThreads := serverThreads + [BattleNet];
      calls := calls + [Call.Run(BattleNet)];
      serverThreads := serverThreads + [Game];
      calls := calls + [Call.Run(Game)];
      serverThreads := serverThreads + [RestApi];
      calls := calls + [Call.Run(RestApi)];
    }

    /** `shutdown`: nothing on a stopped server; otherwise the components are
        shut down in reverse start order, and the joined threads are
        cleared. */
    method Shutdown()
      modifies this
      ensures !old(running) ==> !running && serverThreads == old(serverThreads) && calls == old(calls)
      ensures old(running) ==>
        !running && serverThreads == [] &&
        calls == old(calls) + Calls(c => Call.Shutdown(c), Reverse(StartOrder))
    {
      if !running {
        return;
      }
      running := false;
      ShutdownReversesStart();
      calls := calls + [Call.Shutdown(RestApi), Call.Shutdown(Game), Call.Shutdown(BattleNet)];
      serverThreads := [];
    }
  }
}
