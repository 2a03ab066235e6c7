/**
 * `AutonomousSystem`: its PeeringDB-backed creation and synchronisation, the IRR prefix
 * selection, the contact list, and the search for peering sessions still missing.
 */
module AutonomousSystems {
  import opened Wrappers
  import opened Net
  import opened Records

  /** The autonomous-system table is keyed by its unique ASN. */
  predicate SystemsKeyed(systems: map<Asn, AutonomousSystem>) {
    forall a :: a in systems ==> systems[a].asn == a
  }

  /** The PeeringDB network table is keyed by its unique ASN. */
  predicate NetworksKeyed(db: PeeringDb) {
    forall a :: a in db.networks ==> db.networks[a].asn == a
  }

  /** `peeringdb_network`: `Network.objects.get(asn=asn)`, `None` when there is none. */
  function PeeringDbNetwork(asn: int, db: PeeringDb): (r: Option<Network>)
    requires NetworksKeyed(db)
    ensures r.Some? ==> r.value.asn == asn && r.value in db.networks.Values
    ensures r.None? ==> forall n :: n in db.networks.Values ==> n.asn != asn
  {
    if asn >= 0 && asn as nat in db.networks then Some(db.networks[asn as nat]) else None
  }

  /** The row `get_or_create` inserts: PeeringDB's name, AS-SET and prefix counts, every sync flag on. */
  function NewSystem(n: Network): AutonomousSystem {
    AutonomousSystem(n.asn, n.name, true, "", "", n.irrAsSet, true, n.infoPrefixes6, true, n.infoPrefixes4, true, None, false)
  }

  /**
   * `AutonomousSystem.create_from_peeringdb`: `None` without a PeeringDB network; otherwise
   * the existing row, or a new one built from the network.
   */
  function Resolve(systems: map<Asn, AutonomousSystem>, db: PeeringDb, asn: int): (r: (Option<AutonomousSystem>, map<Asn, AutonomousSystem>))
    requires NetworksKeyed(db) && SystemsKeyed(systems)
    ensures r.0.None? <==> PeeringDbNetwork(asn, db).None?
    ensures r.0.None? ==> r.1 == systems
    ensures r.0.Some? ==> r.0.value.asn == asn && asn as nat in r.1 && r.1[asn as nat] == r.0.value
    ensures asn >= 0 && asn as nat in systems && r.0.Some? ==> r.1 == systems && r.0.value == systems[asn as nat]
    ensures r.0.Some? && !(asn as nat in systems) ==>
      r.1 == systems[asn as nat := r.0.value] && r.0.value == NewSystem(PeeringDbNetwork(asn, db).value)
    ensures SystemsKeyed(r.1)
    ensures forall a :: a in systems ==> a in r.1 && r.1[a] == systems[a]
  {
    match PeeringDbNetwork(asn, db)
    case None => (None, systems)
    case Some(network) =>
      if network.asn in systems then (Some(systems[network.asn]), systems)
      else (Some(NewSystem(network)), systems[network.asn := NewSystem(network)])
  }

  /** `get_or_create` is idempotent: a second resolution returns the same row and adds nothing. */
  lemma ResolveIdempotent(systems: map<Asn, AutonomousSystem>, db: PeeringDb, asn: int)
    requires NetworksKeyed(db) && SystemsKeyed(systems)
    ensures var (first, after) := Resolve(systems, db, asn);
      Resolve(after, db, asn) == (first, after)
  {
  }

  // ---- synchronize_with_peeringdb --------------------------------------------------------

  /** The row after synchronisation with network `n`: each synced field takes PeeringDB's value. */
  function Synchronized(a: AutonomousSystem, n: Network): (r: AutonomousSystem)
    ensures r.name == if a.nameSync then n.name else a.name
    ensures r.irrAsSet == if a.irrAsSetSync then n.irrAsSet else a.irrAsSet
    ensures r.ipv6MaxPrefixes == if a.ipv6MaxPrefixesSync then n.infoPrefixes6 else a.ipv6MaxPrefixes
    ensures r.ipv4MaxPrefixes == if a.ipv4MaxPrefixesSync then n.infoPrefixes4 else a.ipv4MaxPrefixes
    ensures r == a.(name := r.name, irrAsSet := r.irrAsSet, ipv6MaxPrefixes := r.ipv6MaxPrefixes, ipv4MaxPrefixes := r.ipv4MaxPrefixes)
  {
    a.(name := if a.nameSync then n.name else a.name,
       irrAsSet := if a.irrAsSetSync then n.irrAsSet else a.irrAsSet,
       ipv6MaxPrefixes := if a.ipv6MaxPrefixesSync then n.infoPrefixes6 else a.ipv6MaxPrefixes,
       ipv4MaxPrefixes := if a.ipv4MaxPrefixesSync then n.infoPrefixes4 else a.ipv4MaxPrefixes)
  }

  /**
   * `AutonomousSystem.synchronize_with_peeringdb`: false and no change without a PeeringDB
   * network; otherwise the flagged fields are copied one by one and the row is saved.
   */
  method SynchronizeWithPeeringDb(a: AutonomousSystem, db: PeeringDb) returns (synced: bool, updated: AutonomousSystem)
    requires NetworksKeyed(db)
    ensures PeeringDbNetwork(a.asn, db).None? ==> !synced && updated == a
    ensures PeeringDbNetwork(a.asn, db).Some? ==> synced && updated == Synchronized(a, PeeringDbNetwork(a.asn, db).value)
  {
    var network := PeeringDbNetwork(a.asn, db);
    if network.None? {
      return false, a;
    }
    var n := network.value;
    updated := a;
    if a.nameSync {
      updated := updated.(name := n.name);
    }
    if a.irrAsSetSync {
      updated := updated.(irrAsSet := n.irrAsSet);
    }
    if a.ipv6MaxPrefixesSync {
      updated := updated.(ipv6MaxPrefixes := n.infoPrefixes6);
    }
    if a.ipv4MaxPrefixesSync {
      updated := updated.(ipv4MaxPrefixes := n.infoPrefixes4);
    }
    synced := true;
  }

  /** Synchronising twice against the same network changes nothing more. */
  lemma SynchronizedIdempotent(a: AutonomousSystem, n: Network)
    ensures Synchronized(Synchronized(a, n), n) == Synchronized(a, n)
  {
  }

  // ---- get_irr_as_set_prefixes -----------------------------------------------------------

  /** One family's list, or both. */
  datatype PrefixSelection = FamilyList(prefixes: seq<string>) | BothFamilies(both: IrrPrefixes)

  /**
   * `get_irr_as_set_prefixes`: the stored prefixes when there are some, else those the IRR
   * resolver returns (`retrieve`); 6 and 4 pick one family, any other value both.
   */
  function GetIrrAsSetPrefixes(a: AutonomousSystem, retrieve: AutonomousSystem -> IrrPrefixes, addressFamily: int): (r: PrefixSelection)
    ensures a.prefixes.Some? && addressFamily == 6 ==> r == FamilyList(a.prefixes.value.ipv6)
    ensures a.prefixes.Some? && addressFamily == 4 ==> r == FamilyList(a.prefixes.value.ipv4)
    ensures a.prefixes.Some? && addressFamily != 6 && addressFamily != 4 ==> r == BothFamilies(a.prefixes.value)
    ensures a.prefixes.None? && addressFamily == 6 ==> r == FamilyList(retrieve(a).ipv6)
    ensures a.prefixes.None? && addressFamily == 4 ==> r == FamilyList(retrieve(a).ipv4)
    ensures a.prefixes.None? && addressFamily != 6 && addressFamily != 4 ==> r == BothFamilies(retrieve(a))
  {
    var prefixes := if a.prefixes.Some? then a.prefixes.value else retrieve(a);
    if addressFamily == 6 then FamilyList(prefixes.ipv6)
    else if addressFamily == 4 then FamilyList(prefixes.ipv4)
    else BothFamilies(prefixes)
  }

  // ---- get_contact_email_addresses -------------------------------------------------------

  /** `"name - email"`, or the bare address when the name is empty. */
  function Label(name: string, email: string): string {
    if name != "" then name + " - " + email else email
  }

  /** `peeringdb_contacts`: the contacts of the AS's PeeringDB network, in table order. */
  function PeeringDbContacts(a: AutonomousSystem, db: PeeringDb): (r: seq<NetworkContact>)
    requires NetworksKeyed(db)
    ensures forall c :: c in r <==> PeeringDbNetwork(a.asn, db).Some? && c in db.contacts && c.net == a.asn
  {
    if PeeringDbNetwork(a.asn, db).None? then [] else ContactsOf(db.contacts, a.asn)
  }

  function ContactsOf(contacts: seq<NetworkContact>, asn: Asn): (r: seq<NetworkContact>)
    ensures forall c :: c in r <==> c in contacts && c.net == asn
  {
    if contacts == [] then []
    else
      assert forall c :: c in contacts <==> c == contacts[0] || c in contacts[1..];
      (if contacts[0].net == asn then [contacts[0]] else []) + ContactsOf(contacts[1..], asn)
  }

  function Emails(addresses: seq<(string, string)>): (r: seq<string>)
    ensures |r| == |addresses| && forall i :: 0 <= i < |r| ==> r[i] == addresses[i].0
  {
    seq(|addresses|, i requires 0 <= i < |addresses| => addresses[i].0)
  }

  /** `contacts[k]` is the first contact listing its address. */
  predicate FirstWithEmail(contacts: seq<NetworkContact>, k: int) {
    0 <= k < |contacts| && forall j :: 0 <= j < k ==> contacts[j].email != contacts[k].email
  }

  /** `entry` is the address and label of a contact before `bound` that is the first with its address. */
  predicate Sourced(contacts: seq<NetworkContact>, entry: (string, string), bound: int) {
    exists m :: 0 <= m < bound && FirstWithEmail(contacts, m)
      && entry == (contacts[m].email, Label(contacts[m].name, contacts[m].email))
  }

  /** The user's own contact, listed first when an address is set. */
  function UserContact(a: AutonomousSystem): seq<(string, string)> {
    if a.contactEmail != "" then [(a.contactEmail, Label(a.contactName, a.contactEmail))] else []
  }

  /** One iteration: a contact is listed when it has an address that is not listed yet. */
  function AddContact(addresses: seq<(string, string)>, c: NetworkContact): seq<(string, string)> {
    if c.email != "" && c.email !in Emails(addresses) then addresses + [(c.email, Label(c.name, c.email))]
    else addresses
  }

  /** The list after the contacts of `contacts`, in order, were considered. */
  function Collected(start: seq<(string, string)>, contacts: seq<NetworkContact>): seq<(string, string)>
    decreases |contacts|
  {
    if contacts == [] then start
    else AddContact(Collected(start, contacts[..|contacts| - 1]), contacts[|contacts| - 1])
  }

  /** No address listed twice, none empty. */
  predicate WellListed(addresses: seq<(string, string)>) {
    (forall i, j :: 0 <= i < j < |addresses| ==> addresses[i].0 != addresses[j].0)
    && forall i :: 0 <= i < |addresses| ==> addresses[i].0 != ""
  }

  /** The list only grows: the entries present before stay, in place. */
  lemma {:induction false} CollectedExtends(start: seq<(string, string)>, contacts: seq<NetworkContact>)
    ensures |start| <= |Collected(start, contacts)| && Collected(start, contacts)[..|start|] == start
    decreases |contacts|
  {
    if contacts != [] {
      CollectedExtends(start, contacts[..|contacts| - 1]);
    }
  }

  /** No address is listed twice and none is empty, provided the starting entries are so. */
  lemma {:induction false} CollectedWellListed(start: seq<(string, string)>, contacts: seq<NetworkContact>)
    requires WellListed(start)
    ensures WellListed(Collected(start, contacts))
    decreases |contacts|
  {
    if contacts != [] {
      var n := |contacts| - 1;
      var c := contacts[n];
      CollectedWellListed(start, contacts[..n]);
      var before := Collected(start, contacts[..n]);
      if c.email != "" && c.email !in Emails(before) {
        forall i | 0 <= i < |before| ensures before[i].0 != c.email {
          assert Emails(before)[i] == before[i].0;
        }
      }
    }
  }

  /** Every contact with an address has that address listed. */
  lemma {:induction false} CollectedComplete(start: seq<(string, string)>, contacts: seq<NetworkContact>)
    ensures forall m :: 0 <= m < |contacts| && contacts[m].email != "" ==> contacts[m].email in Emails(Collected(start, contacts))
    decreases |contacts|
  {
    if contacts != [] {
      var n := |contacts| - 1;
      var front := contacts[..n];
      var c := contacts[n];
      CollectedComplete(start, front);
      var before := Collected(start, front);
      var r := Collected(start, contacts);
      assert |before| <= |r| && forall j :: 0 <= j < |before| ==> r[j] == before[j];
      forall m | 0 <= m < n && contacts[m].email != "" ensures contacts[m].email in Emails(r) {
        assert front[m] == contacts[m];
        var j :| 0 <= j < |before| && Emails(before)[j] == contacts[m].email;
        assert Emails(r)[j] == contacts[m].email;
      }
      if c.email != "" && c.email !in Emails(before) {
        assert Emails(r)[|before|] == c.email;
      }
    }
  }

  /** An entry sourced from the first `n` contacts is sourced from the whole list. */
  lemma SourcedWidens(contacts: seq<NetworkContact>, n: nat, entry: (string, string))
    requires n <= |contacts|
    requires Sourced(contacts[..n], entry, n)
    ensures Sourced(contacts, entry, |contacts|)
  {
    var front := contacts[..n];
    var m :| 0 <= m < n && FirstWithEmail(front, m)
      && entry == (front[m].email, Label(front[m].name, front[m].email));
    assert front[m] == contacts[m];
    assert FirstWithEmail(contacts, m) by {
      forall j | 0 <= j < m ensures contacts[j].email != contacts[m].email {
        assert front[j] == contacts[j];
      }
    }
  }

  /** The last contact is listed only when no earlier contact has its address. */
  lemma LastIsFirst(start: seq<(string, string)>, contacts: seq<NetworkContact>)
    requires contacts != []
    requires contacts[|contacts| - 1].email != ""
    requires contacts[|contacts| - 1].email !in Emails(Collected(start, contacts[..|contacts| - 1]))
    ensures FirstWithEmail(contacts, |contacts| - 1)
  {
    var n := |contacts| - 1;
    var front := contacts[..n];
    CollectedComplete(start, front);
    forall j | 0 <= j < n ensures contacts[j].email != contacts[n].email {
      assert front[j] == contacts[j];
    }
  }

  /** Every entry after the starting ones is the first contact with its address, labelled. */
  lemma {:induction false} CollectedSourced(start: seq<(string, string)>, contacts: seq<NetworkContact>)
    ensures forall i :: |start| <= i < |Collected(start, contacts)| ==> Sourced(contacts, Collected(start, contacts)[i], |contacts|)
    decreases |contacts|
  {
    if contacts != [] {
      var n := |contacts| - 1;
      var front := contacts[..n];
      var c := contacts[n];
      CollectedSourced(start, front);
      var before := Collected(start, front);
      var r := Collected(start, contacts);
      assert r == AddContact(before, c);
      forall i | |start| <= i < |before| ensures Sourced(contacts, r[i], |contacts|) {
        SourcedWidens(contacts, n, before[i]);
      }
      if c.email != "" && c.email !in Emails(before) {
        LastIsFirst(start, contacts);
        assert r[|before|] == (contacts[n].email, Label(contacts[n].name, contacts[n].email));
      }
    }
  }

  /** The promises of `get_contact_email_addresses`, about the list it builds. */
  lemma ContactList(a: AutonomousSystem, contacts: seq<NetworkContact>)
    ensures var r := Collected(UserContact(a), contacts);
      && WellListed(r)
      && (a.contactEmail != "" ==> |r| > 0 && r[0] == (a.contactEmail, Label(a.contactName, a.contactEmail)))
      && (forall i :: 0 <= i < |r| && !(i == 0 && a.contactEmail != "") ==> Sourced(contacts, r[i], |contacts|))
      && forall c :: c in contacts && c.email != "" ==> c.email in Emails(r)
  {
    var start := UserContact(a);
    var r := Collected(start, contacts);
    CollectedExtends(start, contacts);
    CollectedWellListed(start, contacts);
    CollectedComplete(start, contacts);
    CollectedSourced(start, contacts);
    if a.contactEmail != "" {
      assert r[..1][0] == r[0];
    }
    forall c | c in contacts && c.email != "" ensures c.email in Emails(r) {
      var m :| 0 <= m < |contacts| && contacts[m] == c;
    }
  }

  /**
   * `get_contact_email_addresses`: the user's contact first when set, then each PeeringDB
   * contact with an address not listed yet, each with its label.
   */
  method GetContactEmailAddresses(a: AutonomousSystem, db: PeeringDb) returns (addresses: seq<(string, string)>)
    requires NetworksKeyed(db)
    ensures addresses == Collected(UserContact(a), PeeringDbContacts(a, db))
    ensures WellListed(addresses)
    ensures a.contactEmail != "" ==> |addresses| > 0 && addresses[0] == (a.contactEmail, Label(a.contactName, a.contactEmail))
    ensures forall i :: 0 <= i < |addresses| && !(i == 0 && a.contactEmail != "") ==>
      Sourced(PeeringDbContacts(a, db), addresses[i], |PeeringDbContacts(a, db)|)
    ensures forall c :: c in PeeringDbContacts(a, db) && c.email != "" ==> c.email in Emails(addresses)
  {
    var contacts := PeeringDbContacts(a, db);
    addresses := [];
    if a.contactEmail != "" {
      addresses := [(a.contactEmail, Label(a.contactName, a.contactEmail))];
    }
    addresses := AppendContacts(addresses, contacts);
    ContactList(a, contacts);
  }

  /** The loop over the PeeringDB contacts, from the list built so far. */
  method AppendContacts(start: seq<(string, string)>, contacts: seq<NetworkContact>) returns (addresses: seq<(string, string)>)
    ensures addresses == Collected(start, contacts)
  {
    addresses := start;
    var k := 0;
    while k < |contacts|
      invariant 0 <= k <= |contacts|
      invariant addresses == Collected(start, contacts[..k])
    {
      var contact := contacts[k];
      assert contacts[..k + 1][..k] == contacts[..k];
      if contact.email != "" && contact.email !in Emails(addresses) {
        addresses := addresses + [(contact.email, Label(contact.name, contact.email))];
      }
      k := k + 1;
    }
    assert contacts[..k] == contacts;
  }

  // ---- get_missing_peering_sessions ------------------------------------------------------

  /**
   * `~Q(field__in=values)` on a nullable column: Django keeps the rows where the column is
   * NULL, so an absent address counts as "not in".
   */
  predicate NotIn(address: Option<Ip>, values: set<Ip>) {
    address.None? || address.value !in values
  }

  /** The addresses of the AS's exchange sessions, restricted to one exchange's connections when given. */
  function SessionIps(asn: Asn, connectionIds: Option<set<ConnectionId>>, sessions: seq<IxpSession>): set<Ip> {
    set s | s in sessions && s.asn == Some(asn)
              && (connectionIds.None? || (s.connection.Some? && s.connection.value in connectionIds.value)) :: s.ip
  }

  /**
   * The ixlans of `get_shared_internet_exchange_points(other)`: exchanges of `other` whose
   * ixlan is among those PeeringDB lists as shared by both networks.
   */
  function SharedIxLans(other: AutonomousSystem, exchanges: seq<InternetExchange>, shared: set<IxLanId>): set<IxLanId> {
    set e | e in exchanges && e.localAsn == Some(other.asn) && e.ixlan.Some? && e.ixlan.value in shared :: e.ixlan.value
  }

  /** The member-record filter of `get_missing_peering_sessions`, as written. */
  predicate Missing(n: NetworkIxLan, asn: Asn, ips: set<Ip>, ixlans: set<IxLanId>) {
    n.asn == asn && (NotIn(n.ipaddr6, ips) || NotIn(n.ipaddr4, ips)) && n.ixlan in ixlans
  }

  function FilterMissing(records: seq<NetworkIxLan>, asn: Asn, ips: set<Ip>, ixlans: set<IxLanId>): (r: seq<NetworkIxLan>)
    ensures forall n :: n in r <==> n in records && Missing(n, asn, ips, ixlans)
    ensures |r| <= |records|
  {
    if records == [] then []
    else
      assert forall n :: n in records <==> n == records[0] || n in records[1..];
      (if Missing(records[0], asn, ips, ixlans) then [records[0]] else []) + FilterMissing(records[1..], asn, ips, ixlans)
  }

  /**
   * `AutonomousSystem.get_missing_peering_sessions(other, ix)`: PeeringDB member records of
   * this AS, on the given exchange or on any exchange shared with `other`, with an address
   * that has no session yet. `shared` is what PeeringDB reports as shared by both networks.
   */
  function GetMissingPeeringSessions(
    self: AutonomousSystem, other: AutonomousSystem, ix: Option<InternetExchange>,
    connections: seq<Connection>, sessions: seq<IxpSession>, exchanges: seq<InternetExchange>,
    shared: set<IxLanId>, db: PeeringDb): (r: seq<NetworkIxLan>)
    ensures self.asn == other.asn ==> r == []
    ensures forall n :: n in r ==> n in db.netixlans && n.asn == self.asn
    ensures forall n :: n in r ==> ix.Some? ==> ix.value.ixlan == Some(n.ixlan)
    ensures forall n :: n in r ==> ix.None? ==> n.ixlan in SharedIxLans(other, exchanges, shared)
    ensures forall n :: n in db.netixlans && self.asn != other.asn ==>
      var ips := SessionIps(self.asn, if ix.Some? then Some(ConnectionIds(connections, ix.value.id)) else None, sessions);
      (n in r <==> n.asn == self.asn && (NotIn(n.ipaddr6, ips) || NotIn(n.ipaddr4, ips))
                    && (if ix.Some? then ix.value.ixlan == Some(n.ixlan) else n.ixlan in SharedIxLans(other, exchanges, shared)))
  {
    if self.asn == other.asn then []
    else
      var ips := SessionIps(self.asn, if ix.Some? then Some(ConnectionIds(connections, ix.value.id)) else None, sessions);
      var ixlans := if ix.Some? then (if ix.value.ixlan.Some? then {ix.value.ixlan.value} else {})
                    else SharedIxLans(other, exchanges, shared);
      FilterMissing(db.netixlans, self.asn, ips, ixlans)
  }

  /**
   * Once the AS has a session on the exchange for every address of a member record, the
   * record is no longer reported as missing there.
   */
  lemma PeeredRecordNotMissing(
    self: AutonomousSystem, other: AutonomousSystem, ix: InternetExchange,
    connections: seq<Connection>, sessions: seq<IxpSession>, exchanges: seq<InternetExchange>,
    shared: set<IxLanId>, db: PeeringDb, n: NetworkIxLan, s6: IxpSession, s4: IxpSession)
    requires n.ipaddr6.Some? && n.ipaddr4.Some?
    requires s6 in sessions && s6.asn == Some(self.asn) && s6.ip == n.ipaddr6.value
    requires s4 in sessions && s4.asn == Some(self.asn) && s4.ip == n.ipaddr4.value
    requires s6.connection.Some? && s6.connection.value in ConnectionIds(connections, ix.id)
    requires s4.connection.Some? && s4.connection.value in ConnectionIds(connections, ix.id)
    ensures n !in GetMissingPeeringSessions(self, other, Some(ix), connections, sessions, exchanges, shared, db)
  {
    var ips := SessionIps(self.asn, Some(ConnectionIds(connections, ix.id)), sessions);
    assert s6.ip in ips && s4.ip in ips;
  }
}
