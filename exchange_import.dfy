/**
 * `InternetExchange.import_sessions(connection)`: create a session for every BGP neighbor a
 * router reports on the exchange's LAN, creating the peer AS from PeeringDB on the way.
 */
module ExchangeImports {
  import opened Wrappers
  import opened Net
  import opened Records
  import opened Queries
  import opened AutonomousSystems
  import opened Neighbors

  /** `get_prefixes`: the exchange LAN's prefixes in PeeringDB, none when the exchange is not linked. */
  function AllowedPrefixes(ix: InternetExchange, db: PeeringDb): (r: seq<Prefix>)
    ensures ix.ixlan.None? ==> r == []
    ensures forall q :: q in r <==> ix.ixlan.Some? && exists x :: x in db.prefixes && x.ixlan == ix.ixlan.value && x.prefix == q
  {
    if ix.ixlan.None? then [] else LanPrefixes(db.prefixes, ix.ixlan.value)
  }

  function LanPrefixes(prefixes: seq<IxLanPrefix>, lan: IxLanId): (r: seq<Prefix>)
    ensures forall q :: q in r <==> exists x :: x in prefixes && x.ixlan == lan && x.prefix == q
  {
    if prefixes == [] then []
    else
      assert forall x :: x in prefixes <==> x == prefixes[0] || x in prefixes[1..];
      (if prefixes[0].ixlan == lan then [prefixes[0].prefix] else []) + LanPrefixes(prefixes[1..], lan)
  }

  /** `is_valid`: some allowed prefix of the address's version contains it. */
  function IsValid(allowed: seq<Prefix>, ip: Ip): (r: bool)
    ensures r <==> exists q :: q in allowed && q.family == ip.family && Contains(q, ip)
  {
    if allowed == [] then false
    else
      assert forall q :: q in allowed <==> q == allowed[0] || q in allowed[1..];
      if allowed[0].family == ip.family && Contains(allowed[0], ip) then true
      else IsValid(allowed[1..], ip)
  }

  /** `InternetExchangePeeringSession.objects.get(ixp_connection=connection, ip_address=ip)`. */
  function AtAddress(sessions: seq<IxpSession>, c: ConnectionId, ip: Ip): Lookup {
    Get(sessions, (s: IxpSession) => s.connection == Some(c) && s.ip == ip)
  }

  /**
   * What the loop carries: the tables it writes, the two counters and the list of ASNs that
   * could not be resolved.
   */
  datatype ImportState = ImportState(
    sessions: seq<IxpSession>, systems: map<Asn, AutonomousSystem>,
    sessionNumber: nat, asnNumber: nat, ignored: seq<int>)

  /** One neighbor. */
  function Step(st: ImportState, nb: Neighbor, c: ConnectionId, allowed: seq<Prefix>, db: PeeringDb): Result<ImportState>
    requires NetworksKeyed(db) && SystemsKeyed(st.systems)
  {
    if !IsValid(allowed, nb.ipAddress) then Ok(st)
    else match AtAddress(st.sessions, c, nb.ipAddress)
      case Found(_) => Ok(st)
      case Multiple => Err(MultipleObjectsReturned)
      case NotFound =>
        var (system, systems) := Resolve(st.systems, db, nb.remoteAsn);
        if system.Some? then
          Ok(st.(sessions := st.sessions + [IxpSession(Some(system.value.asn), Some(c), nb.ipAddress, false, NEW_STATE)],
                 systems := systems, sessionNumber := st.sessionNumber + 1, asnNumber := st.asnNumber + 1))
        else if nb.remoteAsn in st.ignored then Ok(st)
        else Ok(st.(ignored := st.ignored + [nb.remoteAsn]))
  }

  /** The loop over the neighbors, stopping at the first exception. */
  function Run(st: ImportState, ns: seq<Neighbor>, c: ConnectionId, allowed: seq<Prefix>, db: PeeringDb): (r: Result<ImportState>)
    requires NetworksKeyed(db) && SystemsKeyed(st.systems)
    ensures r.Ok? ==> SystemsKeyed(r.value.systems)
    ensures r.Err? ==> r.error == MultipleObjectsReturned
    decreases |ns|
  {
    if ns == [] then Ok(st)
    else match Step(st, ns[0], c, allowed, db)
      case Err(e) => Err(e)
      case Ok(next) => Run(next, ns[1..], c, allowed, db)
  }

  /** The state before the first neighbor. */
  function Start(sessions: seq<IxpSession>, systems: map<Asn, AutonomousSystem>): ImportState {
    ImportState(sessions, systems, 0, 0, [])
  }

  /**
   * `import_sessions`: the router's neighbors in order; `(session_number, asn_number)` on
   * success. Reading the router of a connection without one raises; an exception rolls back
   * every session and AS created (`transaction.atomic`). `ignored` is the local list of
   * ASNs without a PeeringDB network.
   */
  method ImportSessions(
    ix: InternetExchange, connection: Connection, neighbors: RouterId -> seq<Neighbor>,
    sessions: seq<IxpSession>, systems: map<Asn, AutonomousSystem>, db: PeeringDb)
    returns (r: Result<(nat, nat)>, sessions': seq<IxpSession>, systems': map<Asn, AutonomousSystem>, ignored: seq<int>)
    requires NetworksKeyed(db) && SystemsKeyed(systems)
    ensures connection.router.None? ==> r == Err(AttributeError)
    ensures connection.router.Some? ==>
      match Run(Start(sessions, systems), neighbors(connection.router.value), connection.id, AllowedPrefixes(ix, db), db)
      case Err(e) => r == Err(e)
      case Ok(st) => r == Ok((st.sessionNumber, st.asnNumber)) && sessions' == st.sessions && systems' == st.systems && ignored == st.ignored
    ensures r.Err? ==> sessions' == sessions && systems' == systems
  {
    var allowed := AllowedPrefixes(ix, db);
    if connection.router.None? {
      return Err(AttributeError), sessions, systems, [];
    }
    var ns := neighbors(connection.router.value);
    ghost var whole := Run(Start(sessions, systems), ns, connection.id, allowed, db);
    var st := Start(sessions, systems);
    var i := 0;
    while i < |ns|
      invariant 0 <= i <= |ns|
      invariant SystemsKeyed(st.systems)
      invariant whole == Run(st, ns[i..], connection.id, allowed, db)
    {
      assert ns[i..][0] == ns[i] && ns[i..][1..] == ns[i + 1..];
      var next := ImportNeighbor(st, ns[i], connection.id, allowed, db);
      if next.Err? {
        return Err(next.error), sessions, systems, [];
      }
      st := next.value;
      i := i + 1;
    }
    assert ns[i..] == [];
    r := Ok((st.sessionNumber, st.asnNumber));
    sessions', systems', ignored := st.sessions, st.systems, st.ignored;
  }

  /** The loop body for one neighbor. */
  method ImportNeighbor(st: ImportState, nb: Neighbor, c: ConnectionId, allowed: seq<Prefix>, db: PeeringDb)
    returns (r: Result<ImportState>)
    requires NetworksKeyed(db) && SystemsKeyed(st.systems)
    ensures r == Step(st, nb, c, allowed, db)
  {
    var ip := nb.ipAddress;
    if !IsValid(allowed, ip) {
      return Ok(st);
    }
    var existing := AtAddress(st.sessions, c, ip);
    if existing == Multiple {
      return Err(MultipleObjectsReturned);
    }
    if existing.Found? {
      return Ok(st);
    }
    var next := st;
    var resolved := Resolve(st.systems, db, nb.remoteAsn);
    var system := resolved.0;
    if system.Some? {
      next := next.(systems := resolved.1, asnNumber := next.asnNumber + 1);
    } else if nb.remoteAsn !in next.ignored {
      next := next.(ignored := next.ignored + [nb.remoteAsn]);
    }
    if system.Some? {
      next := next.(sessions := next.sessions + [IxpSession(Some(system.value.asn), Some(c), ip, false, NEW_STATE)],
                    sessionNumber := next.sessionNumber + 1);
    }
    r := Ok(next);
  }

  // ---- What a run promises ---------------------------------------------------------------

  /**
   * Both counters grow by the number of sessions created: an AS is counted exactly when a
   * session is created for it, including an AS that already existed.
   */
  lemma {:induction false} RunCounts(st: ImportState, ns: seq<Neighbor>, c: ConnectionId, allowed: seq<Prefix>, db: PeeringDb)
    requires NetworksKeyed(db) && SystemsKeyed(st.systems)
    requires Run(st, ns, c, allowed, db).Ok?
    ensures var out := Run(st, ns, c, allowed, db).value;
      && |st.sessions| <= |out.sessions| && out.sessions[..|st.sessions|] == st.sessions
      && out.sessionNumber - st.sessionNumber == |out.sessions| - |st.sessions|
      && out.asnNumber - st.asnNumber == |out.sessions| - |st.sessions|
    decreases |ns|
  {
    if ns != [] {
      var next := Step(st, ns[0], c, allowed, db).value;
      RunCounts(next, ns[1..], c, allowed, db);
      var out := Run(st, ns, c, allowed, db).value;
      assert |next.sessions| <= |out.sessions| && out.sessions[..|next.sessions|] == next.sessions;
      assert |st.sessions| <= |next.sessions| && next.sessions[..|st.sessions|] == st.sessions;
      assert out.sessions[..|st.sessions|] == out.sessions[..|next.sessions|][..|st.sessions|];
    }
  }

  /**
   * Every created session is on the connection, at an address an allowed prefix of its
   * version contains, for an AS PeeringDB knows and which is now in the AS table, and new.
   */
  predicate Sound(s: IxpSession, c: ConnectionId, allowed: seq<Prefix>, systems: map<Asn, AutonomousSystem>, db: PeeringDb)
    requires NetworksKeyed(db)
  {
    && s.connection == Some(c) && IsValid(allowed, s.ip)
    && s.asn.Some? && s.asn.value in systems && PeeringDbNetwork(s.asn.value, db).Some?
    && s.state == NEW_STATE && !s.isRouteServer
  }

  lemma {:induction false} RunSound(st: ImportState, ns: seq<Neighbor>, c: ConnectionId, allowed: seq<Prefix>, db: PeeringDb)
    requires NetworksKeyed(db) && SystemsKeyed(st.systems)
    requires Run(st, ns, c, allowed, db).Ok?
    ensures var out := Run(st, ns, c, allowed, db).value;
      && (forall a :: a in st.systems ==> a in out.systems && out.systems[a] == st.systems[a])
      && |st.sessions| <= |out.sessions|
      && forall k :: |st.sessions| <= k < |out.sessions| ==> Sound(out.sessions[k], c, allowed, out.systems, db)
    decreases |ns|
  {
    if ns != [] {
      var next := Step(st, ns[0], c, allowed, db).value;
      RunSound(next, ns[1..], c, allowed, db);
      RunCounts(next, ns[1..], c, allowed, db);
      var out := Run(st, ns, c, allowed, db).value;
      forall k | |st.sessions| <= k < |next.sessions|
        ensures Sound(out.sessions[k], c, allowed, out.systems, db)
      {
        assert out.sessions[..|next.sessions|][k] == next.sessions[k];
        assert Sound(next.sessions[k], c, allowed, next.systems, db);
      }
    }
  }

  /** The ignored list never repeats an ASN, and holds only ASNs PeeringDB does not know. */
  predicate Unresolvable(ignored: seq<int>, db: PeeringDb)
    requires NetworksKeyed(db)
  {
    Distinct(ignored) && forall k :: 0 <= k < |ignored| ==> PeeringDbNetwork(ignored[k], db).None?
  }

  lemma {:induction false} RunIgnored(st: ImportState, ns: seq<Neighbor>, c: ConnectionId, allowed: seq<Prefix>, db: PeeringDb)
    requires NetworksKeyed(db) && SystemsKeyed(st.systems)
    requires Run(st, ns, c, allowed, db).Ok?
    requires Unresolvable(st.ignored, db)
    ensures Unresolvable(Run(st, ns, c, allowed, db).value.ignored, db)
    decreases |ns|
  {
    if ns != [] {
      var next := Step(st, ns[0], c, allowed, db).value;
      if next.ignored != st.ignored {
        assert next.ignored == st.ignored + [ns[0].remoteAsn];
        assert ns[0].remoteAsn !in st.ignored;
      }
      RunIgnored(next, ns[1..], c, allowed, db);
    }
  }

  // ---- Running the import twice ----------------------------------------------------------

  /** After a run, a neighbor needs nothing more: it is out of the prefixes, stored once, or its AS is unknown. */
  predicate Settled(sessions: seq<IxpSession>, nb: Neighbor, c: ConnectionId, allowed: seq<Prefix>, db: PeeringDb)
    requires NetworksKeyed(db)
  {
    || !IsValid(allowed, nb.ipAddress)
    || AtAddress(sessions, c, nb.ipAddress).Found?
    || (AtAddress(sessions, c, nb.ipAddress) == NotFound && PeeringDbNetwork(nb.remoteAsn, db).None?)
  }

  /** Appending a session for an address that had none keeps every settled neighbor settled. */
  lemma SettledAppend(sessions: seq<IxpSession>, s: IxpSession, nb: Neighbor, c: ConnectionId, allowed: seq<Prefix>, db: PeeringDb)
    requires NetworksKeyed(db)
    requires s.connection == Some(c) && AtAddress(sessions, c, s.ip) == NotFound
    requires Settled(sessions, nb, c, allowed, db)
    ensures Settled(sessions + [s], nb, c, allowed, db)
  {
    GetAppend(sessions, s, (t: IxpSession) => t.connection == Some(c) && t.ip == nb.ipAddress);
  }

  /** A step settles its own neighbor and keeps every other settled one settled. */
  lemma StepSettles(st: ImportState, nb: Neighbor, others: seq<Neighbor>, c: ConnectionId, allowed: seq<Prefix>, db: PeeringDb)
    requires NetworksKeyed(db) && SystemsKeyed(st.systems)
    requires Step(st, nb, c, allowed, db).Ok?
    requires forall m :: m in others ==> Settled(st.sessions, m, c, allowed, db)
    ensures Settled(Step(st, nb, c, allowed, db).value.sessions, nb, c, allowed, db)
    ensures forall m :: m in others ==> Settled(Step(st, nb, c, allowed, db).value.sessions, m, c, allowed, db)
  {
    var next := Step(st, nb, c, allowed, db).value;
    if next.sessions != st.sessions {
      var s := next.sessions[|st.sessions|];
      assert next.sessions == st.sessions + [s];
      GetAppend(st.sessions, s, (t: IxpSession) => t.connection == Some(c) && t.ip == nb.ipAddress);
      forall m | m in others ensures Settled(next.sessions, m, c, allowed, db) {
        SettledAppend(st.sessions, s, m, c, allowed, db);
      }
    }
  }

  lemma {:induction false} RunSettles(st: ImportState, ns: seq<Neighbor>, done: seq<Neighbor>, c: ConnectionId, allowed: seq<Prefix>, db: PeeringDb)
    requires NetworksKeyed(db) && SystemsKeyed(st.systems)
    requires Run(st, ns, c, allowed, db).Ok?
    requires forall m :: m in done ==> Settled(st.sessions, m, c, allowed, db)
    ensures forall m :: m in done + ns ==> Settled(Run(st, ns, c, allowed, db).value.sessions, m, c, allowed, db)
    decreases |ns|
  {
    if ns == [] {
      assert done + ns == done;
    } else {
      var next := Step(st, ns[0], c, allowed, db).value;
      StepSettles(st, ns[0], done, c, allowed, db);
      RunSettles(next, ns[1..], done + [ns[0]], c, allowed, db);
      assert done + ns == (done + [ns[0]]) + ns[1..];
    }
  }

  /** On settled neighbors a run creates nothing, counts nothing and changes no table. */
  lemma {:induction false} RunOnSettled(st: ImportState, ns: seq<Neighbor>, c: ConnectionId, allowed: seq<Prefix>, db: PeeringDb)
    requires NetworksKeyed(db) && SystemsKeyed(st.systems)
    requires forall m :: m in ns ==> Settled(st.sessions, m, c, allowed, db)
    ensures Run(st, ns, c, allowed, db).Ok?
    ensures var out := Run(st, ns, c, allowed, db).value;
      out.sessions == st.sessions && out.systems == st.systems
      && out.sessionNumber == st.sessionNumber && out.asnNumber == st.asnNumber
    decreases |ns|
  {
    if ns != [] {
      assert ns[0] in ns;
      var next := Step(st, ns[0], c, allowed, db).value;
      assert next.sessions == st.sessions && next.systems == st.systems;
      assert forall m :: m in ns[1..] ==> m in ns;
      RunOnSettled(next, ns[1..], c, allowed, db);
    }
  }

  /** Importing again from the same neighbors, once the first import succeeded, creates no session. */
  lemma ImportTwiceCreatesNothing(
    sessions: seq<IxpSession>, systems: map<Asn, AutonomousSystem>, ns: seq<Neighbor>, c: ConnectionId, allowed: seq<Prefix>, db: PeeringDb)
    requires NetworksKeyed(db) && SystemsKeyed(systems)
    requires Run(Start(sessions, systems), ns, c, allowed, db).Ok?
    ensures var first := Run(Start(sessions, systems), ns, c, allowed, db).value;
      var second := Run(Start(first.sessions, first.systems), ns, c, allowed, db);
      second.Ok? && second.value.sessions == first.sessions && second.value.systems == first.systems
      && second.value.sessionNumber == 0 && second.value.asnNumber == 0
  {
    var first := Run(Start(sessions, systems), ns, c, allowed, db).value;
    RunSettles(Start(sessions, systems), ns, [], c, allowed, db);
    assert [] + ns == ns;
    RunOnSettled(Start(first.sessions, first.systems), ns, c, allowed, db);
  }
}
