/**
 * BattleNetServer: the registry of Battle.net connections.
 *
 * The registry `m_clients` maps a key to a client; the client is modelled by
 * its identity (the object it points to), its IP address and whether its
 * socket is still connected. The source keys the registry by IP address;
 * `Corrected*` below is the registry keyed by client identity, which enforces
 * the per-IP cap the source intends.
 */
module BattleNetServer {
  import opened Wrappers

  /** A registered client: `client` identifies the client object. */
  datatype Conn = Conn(client: nat, ip: string, connected: bool)

  /** Number of registered clients whose address is `ip`. */
  function CountIp<K>(m: map<K, Conn>, ip: string): nat
  {
    |set k | k in m && m[k].ip == ip|
  }

  /** The configured cap is a C++ `int`. */
  type int32 = x: int | -0x8000_0000 <= x < 0x8000_0000

  /** `static_cast<size_t>(maxAccountsPerIp)` on a 64-bit host: a negative
      cap wraps to a huge one. */
  function Cap(maxAccountsPerIp: int32): nat
  {
    if maxAccountsPerIp >= 0 then maxAccountsPerIp else maxAccountsPerIp + 0x1_0000_0000_0000_0000
  }

  /** `handleAccept` for a peer whose address could be read: rejected while
      `cap` clients with that address are registered, else stored under its
      address. */
  function AcceptSpec(m: map<string, Conn>, cap: nat, ip: string, client: nat): map<string, Conn>
  {
    if CountIp(m, ip) >= cap then m else m[ip := Conn(client, ip, true)]
  }

  /** `cleanupClients`: keeps exactly the connected entries. */
  function Sweep<K>(m: map<K, Conn>): (r: map<K, Conn>)
  {
    map k | k in m && m[k].connected :: m[k]
  }

  /** Every entry is stored under its own client's address, which is what
      inserting under `client->getIpAddress()` establishes. */
  predicate KeyedByIp(m: map<string, Conn>)
  {
    forall k :: k in m ==> m[k].ip == k
  }

  lemma SweepExact<K>(m: map<K, Conn>)
    ensures forall k :: k in Sweep(m) <==> k in m && m[k].connected
    ensures forall k :: k in Sweep(m) ==> Sweep(m)[k] == m[k]
  {
  }

  /** A second sweep with no change in between removes nothing. */
  lemma SweepIdempotent<K>(m: map<K, Conn>)
    ensures Sweep(Sweep(m)) == Sweep(m)
  {
  }

  /** At the cap the registry is unchanged; below it the newcomer is stored
      under its address, replacing any entry there, and nothing else
      changes. */
  lemma AcceptOutcome(m: map<string, Conn>, cap: nat, ip: string, client: nat)
    ensures CountIp(m, ip) >= cap ==> AcceptSpec(m, cap, ip, client) == m
    ensures CountIp(m, ip) < cap ==>
      var r := AcceptSpec(m, cap, ip, client);
      r.Keys == m.Keys + {ip} && r[ip] == Conn(client, ip, true) &&
      forall k :: k in m && k != ip ==> r[k] == m[k]
  {
  }

  /** Accepting and sweeping keep every entry under its own address, so the
      registry never holds two entries for one address. */
  lemma KeyedByIpPreserved(m: map<string, Conn>, cap: nat, ip: string, client: nat)
    requires KeyedByIp(m)
    ensures KeyedByIp(AcceptSpec(m, cap, ip, client))
    ensures KeyedByIp(Sweep(m))
  {
  }

  lemma {:induction false} AtMostOnePerIp(m: map<string, Conn>, ip: string)
    requires KeyedByIp(m)
    ensures CountIp(m, ip) <= 1
    ensures CountIp(m, ip) == 1 <==> ip in m
  {
    if ip in m {
      assert (set k | k in m && m[k].ip == ip) == {ip};
    } else {
      assert (set k | k in m && m[k].ip == ip) == {};
    }
  }

  /** The defect: with a cap of two or more, a second client from an address
      already registered is never rejected; it replaces the first, which is
      then neither counted, swept nor cleared on shutdown. */
  lemma AcceptReplacesSameIp(m: map<string, Conn>, cap: nat, ip: string, client: nat)
    requires KeyedByIp(m) && ip in m && m[ip].client != client && cap >= 2
    ensures var r := AcceptSpec(m, cap, ip, client);
      r[ip].client == client &&
      (forall k :: k in r ==> r[k] != m[ip]) &&
      CountIp(r, ip) == 1
  {
    AtMostOnePerIp(m, ip);
    var r := AcceptSpec(m, cap, ip, client);
    KeyedByIpPreserved(m, cap, ip, client);
    AtMostOnePerIp(r, ip);
  }

  /** The registry keyed by client identity: the newcomer is added under its
      own identity when fewer than `cap` clients share its address. */
  function CorrectedAccept(m: map<nat, Conn>, cap: nat, ip: string, client: nat): map<nat, Conn>
  {
    if CountIp(m, ip) >= cap then m else m[client := Conn(client, ip, true)]
  }

  lemma CountAfterAdd(m: map<nat, Conn>, client: nat, c: Conn, ip: string)
    requires client !in m
    ensures CountIp(m[client := c], ip) == CountIp(m, ip) + (if c.ip == ip then 1 else 0)
  {
    var before := set k | k in m && m[k].ip == ip;
    var m2 := m[client := c];
    var after := set k | k in m2 && m2[k].ip == ip;
    if c.ip == ip {
      assert after == before + {client};
    } else {
      assert after == before;
    }
  }

  /** With identities as keys, no address ever exceeds the cap and no earlier
      client is displaced. */
  lemma CorrectedAcceptKeepsCap(m: map<nat, Conn>, cap: nat, ip: string, client: nat)
    requires client !in m
    requires forall a :: CountIp(m, a) <= cap
    ensures var r := CorrectedAccept(m, cap, ip, client);
      (forall a :: CountIp(r, a) <= cap) &&
      (forall k :: k in m ==> k in r && r[k] == m[k])
  {
    var r := CorrectedAccept(m, cap, ip, client);
    if CountIp(m, ip) < cap {
      forall a
        ensures CountIp(r, a) <= cap
      {
        CountAfterAdd(m, client, Conn(client, ip, true), a);
      }
    }
  }

  /** Sweeping never raises any address's count. */
  lemma SweepKeepsCap<K>(m: map<K, Conn>, cap: nat)
    requires forall a :: CountIp(m, a) <= cap
    ensures forall a :: CountIp(Sweep(m), a) <= cap
  {
    forall a
      ensures CountIp(Sweep(m), a) <= cap
    {
      var s := Sweep(m);
      var small := set k | k in s && s[k].ip == a;
      var big := set k | k in m && m[k].ip == a;
      assert small <= big;
      SubsetCardinality(small, big);
      assert CountIp(s, a) == |small|;
      assert CountIp(m, a) == |big|;
    }
  }

  lemma {:induction false} SubsetCardinality<T>(a: set<T>, b: set<T>)
    requires a <= b
    ensures |a| <= |b|
    decreases |b|
  {
    if a != {} {
      var x :| x in a;
      SubsetCardinality(a - {x}, b - {x});
    }
  }

  /** Number of the keys in `seen` whose client has address `ip`. */
  function CountAmong(m: map<string, Conn>, seen: set<string>, ip: string): nat
  {
    |set k | k in seen && k in m && m[k].ip == ip|
  }

  lemma CountAmongStep(m: map<string, Conn>, seen: set<string>, k: string, ip: string)
    requires k in m && k !in seen
    ensures CountAmong(m, seen + {k}, ip) == CountAmong(m, seen, ip) + (if m[k].ip == ip then 1 else 0)
  {
    var before := set j | j in seen && j in m && m[j].ip == ip;
    var after := set j | j in seen + {k} && j in m && m[j].ip == ip;
    if m[k].ip == ip {
      assert after == before + {k};
    } else {
      assert after == before;
    }
  }

  /** The counting loop of `handleAccept`: iterates over the registry and
      counts the entries whose client has address `ip`. */
  method CountConnections(m: map<string, Conn>, ip: string) returns (count: nat)
    ensures count == CountIp(m, ip)
  {
    count := 0;
    var remaining := m.Keys;
    ghost var seen: set<string> := {};
    while remaining != {}
      invariant remaining + seen == m.Keys && remaining !! seen
      invariant count == CountAmong(m, seen, ip)
      decreases |remaining|
    {
      var k :| k in remaining;
      CountAmongStep(m, seen, k, ip);
      MoveKey(remaining, seen, k, m.Keys);
      if m[k].ip == ip {
        count := count + 1;
      }
      remaining := remaining - {k};
      seen := seen + {k};
    }
    assert seen == m.Keys;
    CountAmongAll(m, ip);
  }

  /** Moving one key from the unvisited to the visited ones keeps them a
      partition of all the keys. */
  lemma MoveKey(remaining: set<string>, seen: set<string>, k: string, all: set<string>)
    requires remaining + seen == all && remaining !! seen && k in remaining
    ensures (remaining - {k}) + (seen + {k}) == all && (remaining - {k}) !! (seen + {k})
    ensures |remaining - {k}| < |remaining|
  {
  }

  lemma CountAmongAll(m: map<string, Conn>, ip: string)
    ensures CountAmong(m, m.Keys, ip) == CountIp(m, ip)
  {
    assert (set j | j in m.Keys && j in m && m[j].ip == ip) == (set j | j in m && m[j].ip == ip);
  }

  /** The collect-then-erase loop of `cleanupClients`: gathers the keys of
      disconnected clients, then erases each. */
  method RemoveDisconnected(clients: map<string, Conn>) returns (m: map<string, Conn>)
    ensures m == Sweep(clients)
  {
    var disconnected: seq<string> := [];
    m := clients;
    var remaining := m.Keys;
    while remaining != {}
      invariant remaining <= m.Keys
      invariant forall k :: k in disconnected <==> k in m && k !in remaining && !m[k].connected
      decreases |remaining|
    {
      var k :| k in remaining;
      if !m[k].connected {
        disconnected := disconnected + [k];
      }
      remaining := remaining - {k};
    }
    var i := 0;
    while i < |disconnected|
      invariant 0 <= i <= |disconnected|
      invariant m == map k | k in clients && k !in disconnected[..i] :: clients[k]
    {
      assert disconnected[..i + 1] == disconnected[..i] + [disconnected[i]];
      m := m - {disconnected[i]};
      i := i + 1;
    }
    assert disconnected[..i] == disconnected;
  }

  class Server {
    var running: bool
    /** An `async_accept` is outstanding. */
    var accepting: bool
    var clients: map<string, Conn>
    const maxAccountsPerIp: int32

    constructor (maxAccountsPerIp: int32)
      ensures !running && !accepting && clients == map[]
      ensures this.maxAccountsPerIp == maxAccountsPerIp
    {
      running := false;
      accepting := false;
      clients := map[];
      this.maxAccountsPerIp := maxAccountsPerIp;
    }

    function IsRunning(): (r: bool)
      reads this
    {
      running
    }

    method GetClientCount() returns (n: nat)
      ensures n == |clients|
    {
      n := |clients|;
    }

    /** `run`: a running server starts nothing; otherwise it is marked running
        and starts accepting. The command loop is left out. */
    method Run()
      modifies this
      ensures old(running) ==> running && accepting == old(accepting) && clients == old(clients)
      ensures !old(running) ==> running && accepting && clients == old(clients)
    {
      if running {
        return;
      }
      running := true;
      StartAccept();
    }

    /** `shutdown`: a stopped server is unchanged; a running one stops and
        drops every registered client. */
    method Shutdown()
      modifies this
      ensures !old(running) ==> !running && accepting == old(accepting) && clients == old(clients)
      ensures old(running) ==> !running && !accepting && clients == map[]
    {
      if !running {
        return;
      }
      running := false;
      accepting := false;
      clients := map[];
    }

    /** `startAccept`: does nothing unless the server is running. */
    method StartAccept()
      modifies this
      ensures running == old(running) && clients == old(clients)
      ensures accepting == (old(accepting) || running)
    {
      if !running {
        return;
      }
      accepting := true;
    }

    /** The accept completion: a successful accept is handled, then the next
        accept is started. */
    method OnAccept(ok: bool, remoteIp: Option<string>, client: nat)
      modifies this
      ensures running == old(running)
      ensures accepting == (old(accepting) || running)
      ensures clients == if ok && remoteIp.Some?
        then AcceptSpec(old(clients), Cap(maxAccountsPerIp), remoteIp.value, client)
        else old(clients)
    {
      if ok {
        HandleAccept(remoteIp, client);
      }
      StartAccept();
    }

    /** `handleAccept`: `remoteIp` is None when the peer's address cannot be
        read, which the source catches, changing nothing; `client` is the
        identity of the newly created client object. */
    method HandleAccept(remoteIp: Option<string>, client: nat)
      modifies this
      ensures running == old(running) && accepting == old(accepting)
      ensures clients == if remoteIp.Some?
        then AcceptSpec(old(clients), Cap(maxAccountsPerIp), remoteIp.value, client)
        else old(clients)
    {
      if remoteIp.None? {
        return;
      }
      var clientIp := remoteIp.value;
      var connectionCount := CountConnections(clients, clientIp);
      if connectionCount >= Cap(maxAccountsPerIp) {
        return;
      }
      clients := clients[clientIp := Conn(client, clientIp, true)];
    }

    /** A registered client's socket closes. */
    method Disconnect(key: string)
      modifies this
      ensures running == old(running) && accepting == old(accepting)
      ensures clients == if key in old(clients) then old(clients)[key := old(clients)[key].(connected := false)]
                         else old(clients)
    {
      if key in clients {
        clients := clients[key := clients[key].(connected := false)];
      }
    }

    /** `cleanupClients`: collects the keys of disconnected clients, then
        erases them. */
    method CleanupClients()
      modifies this
      ensures running == old(running) && accepting == old(accepting)
      ensures clients == Sweep(old(clients))
    {
      clients := RemoveDisconnected(clients);
    }
  }
}
