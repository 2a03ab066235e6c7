/**
 * `InternetExchange.get_available_peers` and `InternetExchange.link_to_peeringdb`: which
 * PeeringDB members of an exchange LAN still lack a session, and which LAN the exchange is.
 */
module ExchangePeers {
  import opened Wrappers
  import opened Net
  import opened Records
  import opened AutonomousSystems

  // ---- get_available_peers ---------------------------------------------------------------

  /** A session set up over one of the exchange's connections. */
  predicate OnExchange(s: IxpSession, ids: set<ConnectionId>) {
    s.connection.Some? && s.connection.value in ids
  }

  /** The addresses of one version among the exchange's sessions, in table order. */
  function FamilyIps(sessions: seq<IxpSession>, ids: set<ConnectionId>, f: Family): (r: seq<Ip>)
    ensures forall ip :: ip in r <==> ip.family == f && exists s :: s in sessions && OnExchange(s, ids) && s.ip == ip
    decreases |sessions|
  {
    if sessions == [] then []
    else
      var n := |sessions| - 1;
      var s := sessions[n];
      assert forall t :: t in sessions <==> t in sessions[..n] || t == s;
      FamilyIps(sessions[..n], ids, f) + (if OnExchange(s, ids) && s.ip.family == f then [s.ip] else [])
  }

  /**
   * The loop of `get_available_peers`: the exchange's session addresses split into the IPv6
   * and the IPv4 list.
   */
  method PartitionSessionIps(sessions: seq<IxpSession>, ids: set<ConnectionId>) returns (v6: seq<Ip>, v4: seq<Ip>)
    ensures v6 == FamilyIps(sessions, ids, V6)
    ensures v4 == FamilyIps(sessions, ids, V4)
  {
    v6, v4 := [], [];
    var i := 0;
    while i < |sessions|
      invariant 0 <= i <= |sessions|
      invariant v6 == FamilyIps(sessions[..i], ids, V6)
      invariant v4 == FamilyIps(sessions[..i], ids, V4)
    {
      var s := sessions[i];
      assert sessions[..i + 1][..i] == sessions[..i];
      if OnExchange(s, ids) {
        if s.ip.family == V6 {
          v6 := v6 + [s.ip];
        } else if s.ip.family == V4 {
          v4 := v4 + [s.ip];
        }
      }
      i := i + 1;
    }
    assert sessions[..i] == sessions;
  }

  /** The member-record filter of `get_available_peers`, as written. */
  predicate Available(n: NetworkIxLan, local: Asn, ixlan: IxLanId, v6: set<Ip>, v4: set<Ip>) {
    n.asn != local && n.ixlan == ixlan && (NotIn(n.ipaddr6, v6) || NotIn(n.ipaddr4, v4))
  }

  function FilterAvailable(records: seq<NetworkIxLan>, local: Asn, ixlan: IxLanId, v6: set<Ip>, v4: set<Ip>): (r: seq<NetworkIxLan>)
    ensures multiset(r) <= multiset(records)
    ensures forall n :: n in r <==> n in records && Available(n, local, ixlan, v6, v4)
    ensures forall n :: n in records && Available(n, local, ixlan, v6, v4) ==> multiset(r)[n] == multiset(records)[n]
  {
    if records == [] then []
    else
      assert records == [records[0]] + records[1..];
      (if Available(records[0], local, ixlan, v6, v4) then [records[0]] else []) + FilterAvailable(records[1..], local, ixlan, v6, v4)
  }

  /** Ascending by ASN. */
  predicate SortedByAsn(s: seq<NetworkIxLan>) {
    forall i, j :: 0 <= i < j < |s| ==> s[i].asn <= s[j].asn
  }

  /** Places `x` before the first row with a larger or equal ASN. */
  function InsertByAsn(x: NetworkIxLan, s: seq<NetworkIxLan>): (r: seq<NetworkIxLan>)
    requires SortedByAsn(s)
    ensures SortedByAsn(r)
    ensures multiset(r) == multiset(s) + multiset{x}
    ensures |r| == |s| + 1 && (r[0] == x || (|s| > 0 && r[0] == s[0]))
  {
    if s == [] || x.asn <= s[0].asn then [x] + s
    else
      var rest := InsertByAsn(x, s[1..]);
      ConsSorted(s, rest, x);
      [s[0]] + rest
  }

  /** Putting back the smallest row in front of the insertion into the rest. */
  lemma ConsSorted(s: seq<NetworkIxLan>, rest: seq<NetworkIxLan>, x: NetworkIxLan)
    requires s != [] && SortedByAsn(s) && SortedByAsn(rest) && s[0].asn < x.asn
    requires multiset(rest) == multiset(s[1..]) + multiset{x}
    requires |rest| > 0 && (rest[0] == x || (|s| > 1 && rest[0] == s[1]))
    ensures SortedByAsn([s[0]] + rest)
    ensures multiset([s[0]] + rest) == multiset(s) + multiset{x}
  {
    var r := [s[0]] + rest;
    assert s == [s[0]] + s[1..];
    forall i, j | 0 <= i < j < |r| ensures r[i].asn <= r[j].asn {
      assert r[j] == rest[j - 1];
      if i == 0 {
        assert s[0].asn <= rest[0].asn <= rest[j - 1].asn;
      } else {
        assert r[i] == rest[i - 1];
      }
    }
  }

  /** `order_by("asn")`. */
  function SortByAsn(s: seq<NetworkIxLan>): (r: seq<NetworkIxLan>)
    ensures SortedByAsn(r)
    ensures multiset(r) == multiset(s)
  {
    if s == [] then []
    else
      assert s == [s[0]] + s[1..];
      InsertByAsn(s[0], SortByAsn(s[1..]))
  }

  /** The addresses of a list, as the set the `__in` test reads. */
  function IpSet(ips: seq<Ip>): set<Ip> {
    set ip | ip in ips
  }

  /** The sorted selection keeps exactly the available records, each as often as the table holds it. */
  lemma {:induction false} SortedSelection(records: seq<NetworkIxLan>, local: Asn, ixlan: IxLanId, v6: set<Ip>, v4: set<Ip>)
    ensures var r := SortByAsn(FilterAvailable(records, local, ixlan, v6, v4));
      && SortedByAsn(r)
      && multiset(r) <= multiset(records)
      && forall n :: n in records ==>
           (n in r <==> Available(n, local, ixlan, v6, v4))
           && (n in r ==> multiset(r)[n] == multiset(records)[n])
  {
    var f := FilterAvailable(records, local, ixlan, v6, v4);
    var r := SortByAsn(f);
    assert multiset(r) == multiset(f);
    forall n | n in records
      ensures (n in r <==> Available(n, local, ixlan, v6, v4))
      ensures n in r ==> multiset(r)[n] == multiset(records)[n]
    {
      assert n in r <==> n in multiset(r);
      assert n in f <==> n in multiset(f);
    }
  }

  /**
   * `get_available_peers`: nothing when the exchange is not linked to PeeringDB; otherwise
   * the member records of its LAN, other than the local AS, with an address not yet used by
   * a session (a missing address counts as unused), ordered by ASN. Reading the local AS of
   * an exchange without one raises.
   */
  method GetAvailablePeers(ix: InternetExchange, connections: seq<Connection>, sessions: seq<IxpSession>, db: PeeringDb)
    returns (r: Result<seq<NetworkIxLan>>)
    ensures ix.ixlan.None? ==> r == Ok([])
    ensures ix.ixlan.Some? && ix.localAsn.None? ==> r == Err(AttributeError)
    ensures r.Ok? ==> SortedByAsn(r.value)
    ensures r.Ok? && ix.ixlan.Some? ==>
      var v6 := IpSet(FamilyIps(sessions, ConnectionIds(connections, ix.id), V6));
      var v4 := IpSet(FamilyIps(sessions, ConnectionIds(connections, ix.id), V4));
      && ix.localAsn.Some?
      && multiset(r.value) <= multiset(db.netixlans)
      && forall n :: n in db.netixlans ==>
           (n in r.value <==> Available(n, ix.localAsn.value, ix.ixlan.value, v6, v4))
           && (n in r.value ==> multiset(r.value)[n] == multiset(db.netixlans)[n])
  {
    if ix.ixlan.None? {
      return Ok([]);
    }
    var v6, v4 := PartitionSessionIps(sessions, ConnectionIds(connections, ix.id));
    if ix.localAsn.None? {
      return Err(AttributeError);
    }
    var found := FilterAvailable(db.netixlans, ix.localAsn.value, ix.ixlan.value, IpSet(v6), IpSet(v4));
    SortedSelection(db.netixlans, ix.localAsn.value, ix.ixlan.value, IpSet(v6), IpSet(v4));
    r := Ok(SortByAsn(found));
  }

  /**
   * A member with no IPv6 address whose IPv4 address already has a session is still
   * listed: the NULL `ipaddr6` satisfies the negated `__in` test.
   */
  lemma PeeredIpv4OnlyMemberListed(local: Asn, ixlan: IxLanId, v6: set<Ip>, v4: set<Ip>, n: NetworkIxLan)
    requires n.asn != local && n.ixlan == ixlan
    requires n.ipaddr6.None? && n.ipaddr4.Some? && n.ipaddr4.value in v4
    ensures Available(n, local, ixlan, v6, v4)
    ensures !Unpeered(n, v6, v4)
  {
  }

  /** The intended test: the member has an address of its own that no session uses yet. */
  predicate Unpeered(n: NetworkIxLan, v6: set<Ip>, v4: set<Ip>) {
    (n.ipaddr6.Some? && n.ipaddr6.value !in v6) || (n.ipaddr4.Some? && n.ipaddr4.value !in v4)
  }

  predicate AvailableCorrected(n: NetworkIxLan, local: Asn, ixlan: IxLanId, v6: set<Ip>, v4: set<Ip>) {
    n.asn != local && n.ixlan == ixlan && Unpeered(n, v6, v4)
  }

  /**
   * The corrected filter lists exactly the members with an address still to peer with, and
   * differs from the written one only on members lacking an address.
   */
  lemma AvailableCorrectedSound(n: NetworkIxLan, local: Asn, ixlan: IxLanId, v6: set<Ip>, v4: set<Ip>)
    requires Typed(n)
    ensures AvailableCorrected(n, local, ixlan, v6, v4) ==> Available(n, local, ixlan, v6, v4)
    ensures AvailableCorrected(n, local, ixlan, v6, v4) <==>
      n.asn != local && n.ixlan == ixlan && exists ip :: ip in Addresses(n) && ip !in (if ip.family == V6 then v6 else v4)
    ensures n.ipaddr6.Some? && n.ipaddr4.Some? ==>
      (Available(n, local, ixlan, v6, v4) <==> AvailableCorrected(n, local, ixlan, v6, v4))
  {
    if n.ipaddr6.Some? { assert n.ipaddr6.value in Addresses(n); }
    if n.ipaddr4.Some? { assert n.ipaddr4.value in Addresses(n); }
  }

  /** PeeringDB's `ipaddr6` holds an IPv6 address and `ipaddr4` an IPv4 one. */
  predicate Typed(n: NetworkIxLan) {
    (n.ipaddr6.Some? ==> n.ipaddr6.value.family == V6) && (n.ipaddr4.Some? ==> n.ipaddr4.value.family == V4)
  }

  /** The addresses a member record lists. */
  function Addresses(n: NetworkIxLan): set<Ip> {
    (if n.ipaddr6.Some? then {n.ipaddr6.value} else {}) + (if n.ipaddr4.Some? then {n.ipaddr4.value} else {})
  }

  // ---- link_to_peeringdb -----------------------------------------------------------------

  /** The exchange's connections that are linked to a PeeringDB member record. */
  predicate LinkedOn(c: Connection, ix: ExchangeId) {
    c.exchange == ix && c.netixlan.Some?
  }

  /**
   * `link_to_peeringdb`: the LAN all linked connections of the exchange agree on, saved on
   * the exchange; `None`, and nothing saved, when there is no linked connection or two of
   * them disagree.
   */
  method LinkToPeeringDb(ix: InternetExchange, connections: seq<Connection>) returns (r: Option<IxLanId>, updated: InternetExchange)
    ensures r.Some? <==>
      (exists c :: c in connections && LinkedOn(c, ix.id))
      && forall c, d :: c in connections && d in connections && LinkedOn(c, ix.id) && LinkedOn(d, ix.id) ==> c.netixlan == d.netixlan
    ensures r.Some? ==> forall c :: c in connections && LinkedOn(c, ix.id) ==> c.netixlan == r
    ensures r.Some? ==> updated == ix.(ixlan := r)
    ensures r.None? ==> updated == ix
  {
    r := None;
    var i := 0;
    while i < |connections|
      invariant 0 <= i <= |connections|
      invariant r.None? ==> forall k :: 0 <= k < i ==> !LinkedOn(connections[k], ix.id)
      invariant r.Some? ==> exists k :: 0 <= k < i && LinkedOn(connections[k], ix.id)
      invariant r.Some? ==> forall k :: 0 <= k < i && LinkedOn(connections[k], ix.id) ==> connections[k].netixlan == r
    {
      var c := connections[i];
      if c.exchange == ix.id && c.netixlan.Some? {
        if r.None? {
          r := c.netixlan;
        } else if r != c.netixlan {
          var j :| 0 <= j < i && LinkedOn(connections[j], ix.id);
          assert connections[j].netixlan != c.netixlan;
          return None, ix;
        }
      }
      i := i + 1;
    }
    if r.Some? {
      updated := ix.(ixlan := r);
    } else {
      updated := ix;
    }
  }
}
