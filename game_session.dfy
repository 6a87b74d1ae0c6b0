/**
 * GameSession: one game that players join, with its difficulty, its mode
 * and the clients taking part.
 *
 * Only the class declaration of the session is part of the repository. Its
 * comments say no more than that `addClient` reports whether the client was
 * added, and its tests check only the difficulty and the mode. The rule that
 * a client is stored under a string key, that adding refuses exactly a key
 * already present and that removing goes by that key is this model's
 * reading of the declaration. A client is identified by a natural number
 * (the object it points to).
 */
module GameSession {
  import opened Wrappers

  type uint32 = x: int | 0 <= x < 0x1_0000_0000

  datatype GameDifficulty =
    | Normal | Hard | Expert | Master
    | Torment1 | Torment2 | Torment3 | Torment4 | Torment5 | Torment6

  datatype GameMode = Campaign | Adventure | Rift | GreaterRift

  /** The identities of the clients in `clients`, except `exclude`. */
  function Recipients(clients: map<string, nat>, exclude: Option<nat>): (r: set<nat>)
    ensures forall c :: c in r <==>
      (exists k :: k in clients && clients[k] == c) && exclude != Some(c)
  {
    set k | k in clients && Some(clients[k]) != exclude :: clients[k]
  }

  /** With no client excluded, a broadcast reaches every client. */
  lemma BroadcastToAll(clients: map<string, nat>)
    ensures Recipients(clients, None) == clients.Values
  {
  }

  /** Excluding a client removes exactly that client from the recipients. */
  lemma BroadcastExcludes(clients: map<string, nat>, c: nat)
    ensures Recipients(clients, Some(c)) == clients.Values - {c}
  {
  }

  class Session {
    const sessionId: uint32
    var difficulty: GameDifficulty
    var mode: GameMode
    var clients: map<string, nat>
    /** Number of `update` calls so far; it lets the game server's update
        loop be stated. */
    ghost var updateCount: nat

    /** A new session: Normal difficulty, Campaign mode, no clients. */
    constructor (sessionId: uint32)
      ensures this.sessionId == sessionId
      ensures difficulty == Normal && mode == Campaign && clients == map[] && updateCount == 0
    {
      this.sessionId := sessionId;
      difficulty := Normal;
      mode := Campaign;
      clients := map[];
      updateCount := 0;
    }

    function GetSessionId(): (id: uint32)
    {
      sessionId
    }

    function GetClientCount(): (n: nat)
      reads this
      ensures n == |clients|
    {
      |clients|
    }

    /** True exactly when the session has no clients. */
    function IsEmpty(): (e: bool)
      reads this
      ensures e <==> GetClientCount() == 0
      ensures e <==> clients == map[]
    {
      |clients| == 0
    }

    function GetDifficulty(): GameDifficulty
      reads this
    {
      difficulty
    }

    function GetGameMode(): GameMode
      reads this
    {
      mode
    }

    method SetDifficulty(d: GameDifficulty)
      modifies this
      ensures GetDifficulty() == d
      ensures mode == old(mode) && clients == old(clients) && updateCount == old(updateCount)
    {
      difficulty := d;
    }

    method SetGameMode(m: GameMode)
      modifies this
      ensures GetGameMode() == m
      ensures difficulty == old(difficulty) && clients == old(clients) && updateCount == old(updateCount)
    {
      mode := m;
    }

    /** Adds the client under `key`; reports false, changing nothing, when
        the key is taken. */
    method AddClient(key: string, client: nat) returns (added: bool)
      modifies this
      ensures added <==> key !in old(clients)
      ensures clients == if added then old(clients)[key := client] else old(clients)
      ensures difficulty == old(difficulty) && mode == old(mode) && updateCount == old(updateCount)
    {
      if key in clients {
        return false;
      }
      clients := clients[key := client];
      return true;
    }

    method RemoveClient(key: string)
      modifies this
      ensures clients == old(clients) - {key}
      ensures difficulty == old(difficulty) && mode == old(mode) && updateCount == old(updateCount)
    {
      clients := clients - {key};
    }

    /** One tick of game logic: membership, mode and difficulty are kept. */
    method Update()
      modifies this
      ensures updateCount == old(updateCount) + 1
      ensures clients == old(clients) && difficulty == old(difficulty) && mode == old(mode)
    {
      updateCount := updateCount + 1;
    }

    /** The clients a message sent to the session goes to. */
    method BroadcastMessage(message: seq<int>, excludeClient: Option<nat>) returns (sentTo: set<nat>)
      ensures sentTo == Recipients(clients, excludeClient)
    {
      sentTo := Recipients(clients, excludeClient);
    }
  }
}
