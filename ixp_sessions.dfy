/**
 * `InternetExchangePeeringSession`: the unsaved sessions `create_from_peeringdb` proposes for
 * a PeeringDB member record, and the `is_abandoned` classifier.
 */
module IxpSessions {
  import opened Wrappers
  import opened Net
  import opened Records
  import opened Queries
  import opened AutonomousSystems

  /** `getattr(netixlan, f"ipaddr{version}")`. */
  function Address(n: NetworkIxLan, f: Family): Option<Ip> {
    if f == V6 then n.ipaddr6 else n.ipaddr4
  }

  /** The versions `create_from_peeringdb` tries, in order. */
  const VERSIONS: seq<Family> := [V6, V4]

  /** The AS field of a session built from what `create_from_peeringdb` returned. */
  function Peer(system: Option<AutonomousSystem>): Option<Asn> {
    if system.Some? then Some(system.value.asn) else None
  }

  // ---- create_from_peeringdb -------------------------------------------------------------

  /** The (connection, address) pairs of one connection, for the versions of `versions` in order. */
  function PairsOf(c: Connection, n: NetworkIxLan, versions: seq<Family>): seq<(ConnectionId, Ip)>
    decreases |versions|
  {
    if versions == [] then []
    else
      var k := |versions| - 1;
      PairsOf(c, n, versions[..k]) + (if Address(n, versions[k]).Some? then [(c.id, Address(n, versions[k]).value)] else [])
  }

  lemma {:induction false} PairsOfMembers(c: Connection, n: NetworkIxLan, versions: seq<Family>)
    ensures forall p :: p in PairsOf(c, n, versions) <==> p.0 == c.id && exists f :: f in versions && Address(n, f) == Some(p.1)
    decreases |versions|
  {
    if versions != [] {
      var k := |versions| - 1;
      PairsOfMembers(c, n, versions[..k]);
      assert forall f :: f in versions <==> f in versions[..k] || f == versions[k];
    }
  }

  /** The pairs the two loops visit over the connections of exchange `ix`, in order. */
  function Pairs(conns: seq<Connection>, ix: ExchangeId, n: NetworkIxLan): seq<(ConnectionId, Ip)>
    decreases |conns|
  {
    if conns == [] then []
    else
      var k := |conns| - 1;
      Pairs(conns[..k], ix, n) + (if conns[k].exchange == ix then PairsOf(conns[k], n, VERSIONS) else [])
  }

  /** A pair is visited exactly when its connection is on the exchange and its address is the record's. */
  lemma {:induction false} PairsMembers(conns: seq<Connection>, ix: ExchangeId, n: NetworkIxLan)
    ensures forall p :: p in Pairs(conns, ix, n) <==>
      (exists c :: c in conns && c.exchange == ix && c.id == p.0) && (Some(p.1) == n.ipaddr6 || Some(p.1) == n.ipaddr4)
    decreases |conns|
  {
    if conns != [] {
      var k := |conns| - 1;
      var c := conns[k];
      PairsMembers(conns[..k], ix, n);
      PairsOfMembers(c, n, VERSIONS);
      assert forall d :: d in conns <==> d in conns[..k] || d == c;
      forall ip ensures (exists f :: f in VERSIONS && Address(n, f) == Some(ip)) <==> Some(ip) == n.ipaddr6 || Some(ip) == n.ipaddr4 {
        assert V6 in VERSIONS && V4 in VERSIONS;
        if Some(ip) == n.ipaddr6 {
          assert Address(n, V6) == Some(ip);
        }
        if Some(ip) == n.ipaddr4 {
          assert Address(n, V4) == Some(ip);
        }
      }
    }
  }

  /** The keyword arguments of the `get`: same AS, connection and address. */
  predicate SameSession(s: IxpSession, peer: Option<Asn>, p: (ConnectionId, Ip)) {
    s.asn == peer && s.connection == Some(p.0) && s.ip == p.1
  }

  function Existing(sessions: seq<IxpSession>, peer: Option<Asn>, p: (ConnectionId, Ip)): Lookup {
    Get(sessions, (s: IxpSession) => SameSession(s, peer, p))
  }

  /** The `get` for every pair, against the stored sessions. */
  function Lookups(sessions: seq<IxpSession>, peer: Option<Asn>): ((ConnectionId, Ip)) -> Lookup {
    p => Existing(sessions, peer, p)
  }

  /** The unsaved session appended for a pair that has none. */
  function Unsaved(peer: Option<Asn>, p: (ConnectionId, Ip)): IxpSession {
    IxpSession(peer, Some(p.0), p.1, false, NEW_STATE)
  }

  /**
   * The sessions proposed for `pairs`: one per pair without a stored session; a pair with
   * two stored sessions raises `MultipleObjectsReturned`.
   */
  function Proposed(pairs: seq<(ConnectionId, Ip)>, peer: Option<Asn>, lookup: ((ConnectionId, Ip)) -> Lookup): (r: Result<seq<IxpSession>>)
    ensures r.Err? ==> r.error == MultipleObjectsReturned
    ensures r.Ok? ==> |r.value| <= |pairs|
    decreases |pairs|
  {
    if pairs == [] then Ok([])
    else
      var k := |pairs| - 1;
      var front := pairs[..k];
      match Proposed(front, peer, lookup)
      case Err(e) => Err(e)
      case Ok(acc) =>
        match lookup(pairs[k])
        case NotFound => Ok(acc + [Unsaved(peer, pairs[k])])
        case Found(_) => Ok(acc)
        case Multiple => Err(MultipleObjectsReturned)
  }

  /** The proposed sessions are exactly those of the pairs without a stored session. */
  lemma {:induction false} ProposedMembers(pairs: seq<(ConnectionId, Ip)>, peer: Option<Asn>, lookup: ((ConnectionId, Ip)) -> Lookup)
    requires Proposed(pairs, peer, lookup).Ok?
    ensures forall s :: s in Proposed(pairs, peer, lookup).value <==>
      exists k :: 0 <= k < |pairs| && lookup(pairs[k]) == NotFound && s == Unsaved(peer, pairs[k])
    decreases |pairs|
  {
    if pairs != [] {
      var k := |pairs| - 1;
      var front := pairs[..k];
      ProposedMembers(front, peer, lookup);
      assert forall j :: 0 <= j < k ==> front[j] == pairs[j];
    }
  }

  /** The proposal raises exactly when some pair has two stored sessions. */
  lemma {:induction false} ProposedErr(pairs: seq<(ConnectionId, Ip)>, peer: Option<Asn>, lookup: ((ConnectionId, Ip)) -> Lookup)
    ensures Proposed(pairs, peer, lookup).Err? <==> exists p :: p in pairs && lookup(p) == Multiple
    decreases |pairs|
  {
    if pairs != [] {
      var k := |pairs| - 1;
      ProposedErr(pairs[..k], peer, lookup);
      assert forall p :: p in pairs <==> p in pairs[..k] || p == pairs[k];
    }
  }

  /** Once a pair raises, any list of pairs containing it raises too. */
  lemma ProposedRaises(pairs: seq<(ConnectionId, Ip)>, more: seq<(ConnectionId, Ip)>, peer: Option<Asn>, lookup: ((ConnectionId, Ip)) -> Lookup)
    requires Proposed(pairs, peer, lookup).Err?
    requires forall p :: p in pairs ==> p in more
    ensures Proposed(more, peer, lookup) == Proposed(pairs, peer, lookup)
  {
    ProposedErr(pairs, peer, lookup);
    ProposedErr(more, peer, lookup);
    var p :| p in pairs && lookup(p) == Multiple;
    assert p in more;
  }

  /** A pair of one connection that raises makes the whole connection raise. */
  lemma RaisesForConnection(
    done: seq<(ConnectionId, Ip)>, c: Connection, n: NetworkIxLan, v: nat, peer: Option<Asn>, lookup: ((ConnectionId, Ip)) -> Lookup)
    requires v <= |VERSIONS|
    requires Proposed(done + PairsOf(c, n, VERSIONS[..v]), peer, lookup).Err?
    ensures Proposed(done + PairsOf(c, n, VERSIONS), peer, lookup) == Proposed(done + PairsOf(c, n, VERSIONS[..v]), peer, lookup)
    ensures |done + PairsOf(c, n, VERSIONS)| > 0
  {
    PairsOfMembers(c, n, VERSIONS[..v]);
    PairsOfMembers(c, n, VERSIONS);
    forall p | p in done + PairsOf(c, n, VERSIONS[..v]) ensures p in done + PairsOf(c, n, VERSIONS) {
      assert forall f :: f in VERSIONS[..v] ==> f in VERSIONS;
    }
    ProposedRaises(done + PairsOf(c, n, VERSIONS[..v]), done + PairsOf(c, n, VERSIONS), peer, lookup);
  }

  /** A connection that raises makes the whole exchange raise. */
  lemma RaisesOnExchange(conns: seq<Connection>, i: nat, ix: ExchangeId, n: NetworkIxLan, peer: Option<Asn>, lookup: ((ConnectionId, Ip)) -> Lookup)
    requires i <= |conns|
    requires Proposed(Pairs(conns[..i], ix, n), peer, lookup).Err?
    ensures Proposed(Pairs(conns, ix, n), peer, lookup) == Proposed(Pairs(conns[..i], ix, n), peer, lookup)
    ensures |Pairs(conns, ix, n)| > 0
  {
    PairsMembers(conns[..i], ix, n);
    PairsMembers(conns, ix, n);
    forall p | p in Pairs(conns[..i], ix, n) ensures p in Pairs(conns, ix, n) {
      var c :| c in conns[..i] && c.exchange == ix && c.id == p.0;
      assert c in conns;
    }
    ProposedRaises(Pairs(conns[..i], ix, n), Pairs(conns, ix, n), peer, lookup);
  }

  lemma ProposedAppend(pairs: seq<(ConnectionId, Ip)>, p: (ConnectionId, Ip), peer: Option<Asn>, lookup: ((ConnectionId, Ip)) -> Lookup)
    requires Proposed(pairs, peer, lookup).Ok?
    ensures Proposed(pairs + [p], peer, lookup) ==
      match lookup(p)
      case NotFound => Ok(Proposed(pairs, peer, lookup).value + [Unsaved(peer, p)])
      case Found(_) => Proposed(pairs, peer, lookup)
      case Multiple => Err(MultipleObjectsReturned)
  {
    assert (pairs + [p])[..|pairs|] == pairs;
  }

  /** The AS table once `create_from_peeringdb` resolved the record's AS for each of `pairs`. */
  function Touched(systems: map<Asn, AutonomousSystem>, db: PeeringDb, asn: Asn, pairs: seq<(ConnectionId, Ip)>): map<Asn, AutonomousSystem>
    requires NetworksKeyed(db) && SystemsKeyed(systems)
  {
    if |pairs| == 0 then systems else Resolve(systems, db, asn).1
  }

  /** Resolving once more returns the same AS and leaves the table as one resolution leaves it. */
  lemma TouchedStep(systems: map<Asn, AutonomousSystem>, db: PeeringDb, asn: Asn, pairs: seq<(ConnectionId, Ip)>, p: (ConnectionId, Ip))
    requires NetworksKeyed(db) && SystemsKeyed(systems)
    ensures SystemsKeyed(Touched(systems, db, asn, pairs))
    ensures Resolve(Touched(systems, db, asn, pairs), db, asn) == (Resolve(systems, db, asn).0, Touched(systems, db, asn, pairs + [p]))
  {
    ResolveIdempotent(systems, db, asn);
  }

  /**
   * One pass of the inner loop for a present address: resolve the AS again, then look the
   * session up and propose it when there is none.
   */
  method ProposePair(
    ghost start: map<Asn, AutonomousSystem>, ghost pairs: seq<(ConnectionId, Ip)>, pair: (ConnectionId, Ip),
    acc: seq<IxpSession>, sessions: seq<IxpSession>, systems: map<Asn, AutonomousSystem>, db: PeeringDb, asn: Asn)
    returns (r: Result<seq<IxpSession>>, systems': map<Asn, AutonomousSystem>)
    requires NetworksKeyed(db) && SystemsKeyed(start)
    requires systems == Touched(start, db, asn, pairs)
    requires Proposed(pairs, Peer(Resolve(start, db, asn).0), Lookups(sessions, Peer(Resolve(start, db, asn).0))) == Ok(acc)
    ensures var peer := Peer(Resolve(start, db, asn).0);
      r == Proposed(pairs + [pair], peer, Lookups(sessions, peer))
    ensures systems' == Touched(start, db, asn, pairs + [pair])
  {
    ghost var peer := Peer(Resolve(start, db, asn).0);
    TouchedStep(start, db, asn, pairs, pair);
    ProposedAppend(pairs, pair, peer, Lookups(sessions, peer));
    var resolved := Resolve(systems, db, asn);
    var system := resolved.0;
    systems' := resolved.1;
    var existing := Existing(sessions, Peer(system), pair);
    if existing == Multiple {
      r := Err(MultipleObjectsReturned);
    } else if existing == NotFound {
      r := Ok(acc + [IxpSession(Peer(system), Some(pair.0), pair.1, false, NEW_STATE)]);
    } else {
      r := Ok(acc);
    }
  }

  /** The inner loop, over `[6, 4]`, for one connection of the exchange. */
  method ProposeForConnection(
    c: Connection, n: NetworkIxLan, ghost start: map<Asn, AutonomousSystem>, ghost done: seq<(ConnectionId, Ip)>,
    results: seq<IxpSession>, sessions: seq<IxpSession>, systems: map<Asn, AutonomousSystem>, db: PeeringDb)
    returns (r: Result<seq<IxpSession>>, systems': map<Asn, AutonomousSystem>)
    requires NetworksKeyed(db) && SystemsKeyed(start)
    requires systems == Touched(start, db, n.asn, done)
    requires Proposed(done, Peer(Resolve(start, db, n.asn).0), Lookups(sessions, Peer(Resolve(start, db, n.asn).0))) == Ok(results)
    ensures var peer := Peer(Resolve(start, db, n.asn).0);
      r == Proposed(done + PairsOf(c, n, VERSIONS), peer, Lookups(sessions, peer))
    ensures systems' == Touched(start, db, n.asn, done + PairsOf(c, n, VERSIONS))
  {
    ghost var peer := Peer(Resolve(start, db, n.asn).0);
    ghost var lookup := Lookups(sessions, peer);
    systems' := systems;
    var acc := results;
    var v := 0;
    assert done + PairsOf(c, n, VERSIONS[..0]) == done;
    while v < |VERSIONS|
      invariant 0 <= v <= |VERSIONS|
      invariant Proposed(done + PairsOf(c, n, VERSIONS[..v]), peer, lookup) == Ok(acc)
      invariant systems' == Touched(start, db, n.asn, done + PairsOf(c, n, VERSIONS[..v]))
    {
      var step;
      step, systems' := ProposeVersion(c, n, start, done, v, acc, sessions, systems', db);
      if step.Err? {
        return step, systems';
      }
      acc := step.value;
      v := v + 1;
    }
    assert VERSIONS[..v] == VERSIONS;
    r := Ok(acc);
  }

  /** One version of the inner loop: nothing for an absent address, else one pair. */
  method ProposeVersion(
    c: Connection, n: NetworkIxLan, ghost start: map<Asn, AutonomousSystem>, ghost done: seq<(ConnectionId, Ip)>, v: nat,
    acc: seq<IxpSession>, sessions: seq<IxpSession>, systems: map<Asn, AutonomousSystem>, db: PeeringDb)
    returns (r: Result<seq<IxpSession>>, systems': map<Asn, AutonomousSystem>)
    requires v < |VERSIONS|
    requires NetworksKeyed(db) && SystemsKeyed(start)
    requires systems == Touched(start, db, n.asn, done + PairsOf(c, n, VERSIONS[..v]))
    requires Proposed(done + PairsOf(c, n, VERSIONS[..v]), Peer(Resolve(start, db, n.asn).0), Lookups(sessions, Peer(Resolve(start, db, n.asn).0))) == Ok(acc)
    ensures var peer := Peer(Resolve(start, db, n.asn).0);
      r == Proposed(done + PairsOf(c, n, VERSIONS[..v + 1]), peer, Lookups(sessions, peer))
    ensures systems' == Touched(start, db, n.asn, done + PairsOf(c, n, VERSIONS[..v + 1]))
    ensures var peer := Peer(Resolve(start, db, n.asn).0);
      r.Err? ==> r == Proposed(done + PairsOf(c, n, VERSIONS), peer, Lookups(sessions, peer))
  {
    assert VERSIONS[..v + 1][..v] == VERSIONS[..v];
    ghost var visited := done + PairsOf(c, n, VERSIONS[..v]);
    var ip := Address(n, VERSIONS[v]);
    if ip.None? {
      assert PairsOf(c, n, VERSIONS[..v + 1]) == PairsOf(c, n, VERSIONS[..v]);
      r, systems' := Ok(acc), systems;
    } else {
      var pair := (c.id, ip.value);
      assert done + PairsOf(c, n, VERSIONS[..v + 1]) == visited + [pair];
      r, systems' := ProposePair(start, visited, pair, acc, sessions, systems, db, n.asn);
      if r.Err? {
        ghost var peer := Peer(Resolve(start, db, n.asn).0);
        RaisesForConnection(done, c, n, v + 1, peer, Lookups(sessions, peer));
      }
    }
  }

  /** The outer loop of `create_from_peeringdb`, over the connections of the exchange. */
  method ProposeOnExchange(
    ix: InternetExchange, n: NetworkIxLan, connections: seq<Connection>,
    sessions: seq<IxpSession>, systems: map<Asn, AutonomousSystem>, db: PeeringDb)
    returns (r: Result<seq<IxpSession>>, systems': map<Asn, AutonomousSystem>)
    requires NetworksKeyed(db) && SystemsKeyed(systems)
    ensures var peer := Peer(Resolve(systems, db, n.asn).0);
      r == Proposed(Pairs(connections, ix.id, n), peer, Lookups(sessions, peer))
    ensures systems' == Touched(systems, db, n.asn, Pairs(connections, ix.id, n))
  {
    ghost var peer := Peer(Resolve(systems, db, n.asn).0);
    systems' := systems;
    var results := [];
    var i := 0;
    while i < |connections|
      invariant 0 <= i <= |connections|
      invariant Proposed(Pairs(connections[..i], ix.id, n), peer, Lookups(sessions, peer)) == Ok(results)
      invariant systems' == Touched(systems, db, n.asn, Pairs(connections[..i], ix.id, n))
    {
      var c := connections[i];
      assert connections[..i + 1][..i] == connections[..i];
      if c.exchange == ix.id {
        var step;
        step, systems' := ProposeForConnection(c, n, systems, Pairs(connections[..i], ix.id, n), results, sessions, systems', db);
        assert Pairs(connections[..i + 1], ix.id, n) == Pairs(connections[..i], ix.id, n) + PairsOf(c, n, VERSIONS);
        if step.Err? {
          RaisesOnExchange(connections, i + 1, ix.id, n, peer, Lookups(sessions, peer));
          return step, systems';
        }
        results := step.value;
      } else {
        assert Pairs(connections[..i + 1], ix.id, n) == Pairs(connections[..i], ix.id, n) + [];
        assert Pairs(connections[..i], ix.id, n) + [] == Pairs(connections[..i], ix.id, n);
      }
      i := i + 1;
    }
    assert connections[..i] == connections;
    r := Ok(results);
  }

  /**
   * `InternetExchangePeeringSession.create_from_peeringdb(affiliated, netixlan)`: for every
   * connection of the exchange whose LAN is the record's, and each of its addresses (IPv6
   * first), an unsaved session unless one is stored for the same AS, connection and address.
   * The exchange lookup raises when there is none or several; an AS created on the way stays
   * created whatever happens next.
   */
  method CreateFromPeeringDb(
    netixlan: Option<NetworkIxLan>, exchanges: seq<InternetExchange>, connections: seq<Connection>,
    sessions: seq<IxpSession>, systems: map<Asn, AutonomousSystem>, db: PeeringDb)
    returns (r: Result<seq<IxpSession>>, systems': map<Asn, AutonomousSystem>)
    requires NetworksKeyed(db) && SystemsKeyed(systems)
    ensures netixlan.None? ==> r == Ok([]) && systems' == systems
    ensures netixlan.Some? ==>
      match Get(exchanges, (e: InternetExchange) => e.ixlan == Some(netixlan.value.ixlan))
      case NotFound => r == Err(DoesNotExist) && systems' == systems
      case Multiple => r == Err(MultipleObjectsReturned) && systems' == systems
      case Found(k) =>
        var pairs := Pairs(connections, exchanges[k].id, netixlan.value);
        var peer := Peer(Resolve(systems, db, netixlan.value.asn).0);
        && r == Proposed(pairs, peer, Lookups(sessions, peer))
        && systems' == if pairs == [] then systems else Resolve(systems, db, netixlan.value.asn).1
  {
    if netixlan.None? {
      return Ok([]), systems;
    }
    var n := netixlan.value;
    match Get(exchanges, (e: InternetExchange) => e.ixlan == Some(n.ixlan))
    case NotFound =>
      r, systems' := Err(DoesNotExist), systems;
    case Multiple =>
      r, systems' := Err(MultipleObjectsReturned), systems;
    case Found(k) =>
      r, systems' := ProposeOnExchange(exchanges[k], n, connections, sessions, systems, db);
  }

  /**
   * What `create_from_peeringdb` proposes: sessions with the record's AS, on a connection of
   * the exchange, for one of the record's addresses, none of them already stored; and every
   * such pair not yet stored gets one.
   */
  lemma ProposedSessions(conns: seq<Connection>, ix: ExchangeId, n: NetworkIxLan, peer: Option<Asn>, sessions: seq<IxpSession>)
    requires Proposed(Pairs(conns, ix, n), peer, Lookups(sessions, peer)).Ok?
    ensures forall s :: s in Proposed(Pairs(conns, ix, n), peer, Lookups(sessions, peer)).value ==>
      && s.asn == peer && s.state == NEW_STATE && !s.isRouteServer
      && s.connection.Some? && (exists c :: c in conns && c.exchange == ix && Some(c.id) == s.connection)
      && (Some(s.ip) == n.ipaddr6 || Some(s.ip) == n.ipaddr4)
      && forall t :: t in sessions ==> !SameSession(t, peer, (s.connection.value, s.ip))
    ensures forall c, f ::
      (c in conns && c.exchange == ix && Address(n, f).Some?
       && forall t :: t in sessions ==> !SameSession(t, peer, (c.id, Address(n, f).value))) ==>
      Unsaved(peer, (c.id, Address(n, f).value)) in Proposed(Pairs(conns, ix, n), peer, Lookups(sessions, peer)).value
  {
    var pairs := Pairs(conns, ix, n);
    ProposedMembers(pairs, peer, Lookups(sessions, peer));
    PairsMembers(conns, ix, n);
    forall s | s in Proposed(pairs, peer, Lookups(sessions, peer)).value
      ensures s.asn == peer && s.state == NEW_STATE && !s.isRouteServer && s.connection.Some?
      ensures exists c :: c in conns && c.exchange == ix && Some(c.id) == s.connection
      ensures Some(s.ip) == n.ipaddr6 || Some(s.ip) == n.ipaddr4
      ensures forall t :: t in sessions ==> !SameSession(t, peer, (s.connection.value, s.ip))
    {
      var k :| 0 <= k < |pairs| && Lookups(sessions, peer)(pairs[k]) == NotFound && s == Unsaved(peer, pairs[k]);
      assert pairs[k] in pairs;
      NotFoundNoneStored(sessions, peer, pairs[k]);
    }
    forall c, f | c in conns && c.exchange == ix && Address(n, f).Some?
      && (forall t :: t in sessions ==> !SameSession(t, peer, (c.id, Address(n, f).value)))
      ensures Unsaved(peer, (c.id, Address(n, f).value)) in Proposed(pairs, peer, Lookups(sessions, peer)).value
    {
      var p := (c.id, Address(n, f).value);
      assert p in pairs;
      var k :| 0 <= k < |pairs| && pairs[k] == p;
      NoneStoredNotFound(sessions, peer, p);
    }
  }

  /** A pair the `get` does not find has no stored session. */
  lemma NotFoundNoneStored(sessions: seq<IxpSession>, peer: Option<Asn>, p: (ConnectionId, Ip))
    requires Existing(sessions, peer, p) == NotFound
    ensures forall t :: t in sessions ==> !SameSession(t, peer, p)
  {
    forall t | t in sessions ensures !SameSession(t, peer, p) {
      var j :| 0 <= j < |sessions| && sessions[j] == t;
    }
  }

  /** A pair with no stored session is not found by the `get`. */
  lemma NoneStoredNotFound(sessions: seq<IxpSession>, peer: Option<Asn>, p: (ConnectionId, Ip))
    requires forall t :: t in sessions ==> !SameSession(t, peer, p)
    ensures Existing(sessions, peer, p) == NotFound
  {
    assert forall j :: 0 <= j < |sessions| ==> sessions[j] in sessions;
  }

  // ---- is_abandoned ----------------------------------------------------------------------

  /**
   * `exists_in_peeringdb`: a member record lists the address in the column of its version;
   * `get` raises when several do.
   */
  function ExistsInPeeringDb(ip: Ip, db: PeeringDb): (r: Result<bool>)
    ensures r == Ok(false) <==> forall n :: n in db.netixlans ==> Address(n, ip.family) != Some(ip)
    ensures r.Err? <==>
      exists j, k :: 0 <= j < k < |db.netixlans| && Address(db.netixlans[j], ip.family) == Some(ip)
        && Address(db.netixlans[k], ip.family) == Some(ip)
    ensures r.Err? ==> r.error == MultipleObjectsReturned
  {
    match Get(db.netixlans, (n: NetworkIxLan) => Address(n, ip.family) == Some(ip))
    case NotFound =>
      assert forall n :: n in db.netixlans ==> exists k :: 0 <= k < |db.netixlans| && db.netixlans[k] == n;
      Ok(false)
    case Found(_) => Ok(true)
    case Multiple => Err(MultipleObjectsReturned)
  }

  /**
   * `is_abandoned`. `connection`, `exchange` and `system` are the session's resolved foreign
   * keys; the clauses are tried in order and a missing key raises `AttributeError` when reached.
   */
  function IsAbandoned(
    session: IxpSession, connection: Option<Connection>, exchange: Option<InternetExchange>,
    system: Option<AutonomousSystem>, db: PeeringDb): (r: Result<bool>)
    requires NetworksKeyed(db)
    requires connection.Some? <==> session.connection.Some?
    requires connection.Some? ==> connection.value.id == session.connection.value
    requires connection.Some? ==> exchange.Some? && exchange.value.id == connection.value.exchange
    requires system.Some? <==> session.asn.Some?
    requires system.Some? ==> system.value.asn == session.asn.value
    ensures r == Ok(true) <==>
      && connection.Some? && connection.value.netixlan.Some?
      && exchange.value.checkStates
      && system.Some? && PeeringDbNetwork(system.value.asn, db).Some?
      && (forall n :: n in db.netixlans ==> Address(n, session.ip.family) != Some(session.ip))
      && session.state.bgpState in {Some(IDLE), Some(ACTIVE)}
    ensures r.Err? <==>
      || connection.None?
      || (connection.value.netixlan.Some? && exchange.value.checkStates
          && (system.None? || (PeeringDbNetwork(system.value.asn, db).Some? && ExistsInPeeringDb(session.ip, db).Err?)))
    ensures r.Err? && connection.Some? && system.Some? ==> r.error == MultipleObjectsReturned
    ensures r.Err? && (connection.None? || system.None?) ==> r.error == AttributeError
  {
    if connection.None? then Err(AttributeError)
    else if connection.value.netixlan.None? then Ok(false)
    else if !exchange.value.checkStates then Ok(false)
    else if system.None? then Err(AttributeError)
    else if PeeringDbNetwork(system.value.asn, db).None? then Ok(false)
    else match ExistsInPeeringDb(session.ip, db)
      case Err(e) => Err(e)
      case Ok(true) => Ok(false)
      case Ok(false) => Ok(session.state.bgpState in {Some(IDLE), Some(ACTIVE)})
  }

  /** An established session, or one never polled, is never abandoned. */
  lemma EstablishedNotAbandoned(
    session: IxpSession, connection: Option<Connection>, exchange: Option<InternetExchange>,
    system: Option<AutonomousSystem>, db: PeeringDb)
    requires NetworksKeyed(db)
    requires connection.Some? <==> session.connection.Some?
    requires connection.Some? ==> connection.value.id == session.connection.value
    requires connection.Some? ==> exchange.Some? && exchange.value.id == connection.value.exchange
    requires system.Some? <==> session.asn.Some?
    requires system.Some? ==> system.value.asn == session.asn.value
    requires session.state.bgpState == Some(ESTABLISHED) || session.state.bgpState.None?
    ensures IsAbandoned(session, connection, exchange, system, db) != Ok(true)
  {
    assert Some(ESTABLISHED) != Some(IDLE) && Some(ESTABLISHED) != Some(ACTIVE);
  }
}
