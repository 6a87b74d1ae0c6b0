/**
 * World: the set of players present in one game world. A player is
 * identified by a natural number (the object it points to); a null
 * `shared_ptr` is `None`.
 */
module World {
  import opened Wrappers

  /** `addPlayer`: inserts a non-null player; the insert is idempotent. */
  function AddSpec(players: set<nat>, player: Option<nat>): set<nat>
  {
    if player.Some? then players + {player.value} else players
  }

  /** `removePlayer`: erases a non-null player if present. */
  function RemoveSpec(players: set<nat>, player: Option<nat>): set<nat>
  {
    if player.Some? && player.value in players then players - {player.value} else players
  }

  lemma AddMakesMember(players: set<nat>, p: nat)
    ensures p in AddSpec(players, Some(p))
    ensures AddSpec(players, Some(p)) - {p} == players - {p}
  {
  }

  lemma AddIdempotent(players: set<nat>, p: Option<nat>)
    ensures AddSpec(AddSpec(players, p), p) == AddSpec(players, p)
    ensures p.Some? && p.value in players ==> AddSpec(players, p) == players
  {
  }

  lemma NullPlayerIgnored(players: set<nat>)
    ensures AddSpec(players, None) == players && RemoveSpec(players, None) == players
  {
  }

  /** Removing a member removes only it; removing a non-member changes
      nothing; either way the player is gone afterwards. */
  lemma RemoveOutcome(players: set<nat>, p: nat)
    ensures p !in RemoveSpec(players, Some(p))
    ensures p in players ==> RemoveSpec(players, Some(p)) + {p} == players
    ensures p !in players ==> RemoveSpec(players, Some(p)) == players
  {
  }

  /** Adding a player that was absent and then removing it restores the set. */
  lemma AddThenRemove(players: set<nat>, p: nat)
    requires p !in players
    ensures RemoveSpec(AddSpec(players, Some(p)), Some(p)) == players
  {
  }

  class World {
    const name: string
    const sceneIdentifier: string
    var playersInWorld: set<nat>

    constructor (name: string, sceneIdentifier: string)
      ensures this.name == name && this.sceneIdentifier == sceneIdentifier
      ensures playersInWorld == {}
    {
      this.name := name;
      this.sceneIdentifier := sceneIdentifier;
      playersInWorld := {};
    }

    method AddPlayer(player: Option<nat>)
      modifies this
      ensures playersInWorld == AddSpec(old(playersInWorld), player)
    {
      if player.Some? {
        playersInWorld := playersInWorld + {player.value};
      }
    }

    method RemovePlayer(player: Option<nat>)
      modifies this
      ensures playersInWorld == RemoveSpec(old(playersInWorld), player)
    {
      if player.Some? {
        if player.value in playersInWorld {
          playersInWorld := playersInWorld - {player.value};
        }
      }
    }

    /** `update` visits the players and changes no membership: the body of
        its loop only null-checks each player (the per-player update is
        commented out in the source), so each step does nothing. */
    method Update()
      ensures playersInWorld == old(playersInWorld)
    {
      var remaining := playersInWorld;
      while remaining != {}
        invariant remaining <= playersInWorld
        decreases |remaining|
      {
        var p :| p in remaining;
        remaining := remaining - {p};
      }
    }

    /** The destructor clears the player set. */
    method Destroy()
      modifies this
      ensures playersInWorld == {}
    {
      playersInWorld := {};
    }
  }
}
