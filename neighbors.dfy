/**
 * `Router._napalm_bgp_neighbors_to_peer_list`: turns NAPALM's `get_bgp_neighbors` output
 * (VRF -> {"peers": address string -> details}) into a list of (address, remote ASN).
 */
module Neighbors {
  import opened Wrappers
  import opened Net

  /** The details reported for one peer; only the optional "remote_as" key is read. */
  datatype PeerDetails = PeerDetails(remoteAs: Option<int>)

  /** One VRF and its peers, keyed by address string, in dictionary order. */
  datatype Vrf = Vrf(name: string, peers: seq<(string, PeerDetails)>)

  /** One entry of the result: `{"ip_address": ..., "remote_asn": ...}`. */
  datatype Neighbor = Neighbor(ipAddress: Ip, remoteAsn: int)

  /** `ipaddress.ip_address`, which fails on malformed strings. */
  type Parser = string -> Option<Ip>
  /** `str` applied to an address. */
  type Formatter = Ip -> string

  /** Every peer of every VRF, VRF after VRF. */
  function Traversal(vrfs: seq<Vrf>): seq<(string, PeerDetails)> {
    if vrfs == [] then [] else vrfs[0].peers + Traversal(vrfs[1..])
  }

  /** The addresses already kept, as the source spells them back: `[str(i["ip_address"]) ...]`. */
  function Spellings(kept: seq<Neighbor>, format: Formatter): seq<string> {
    seq(|kept|, i requires 0 <= i < |kept| => format(kept[i].ipAddress))
  }

  /** One step of the loop body: drop without "remote_as", drop a string already kept, drop on parse failure. */
  function Admit(kept: seq<Neighbor>, peer: (string, PeerDetails), parse: Parser, format: Formatter): seq<Neighbor> {
    if peer.1.remoteAs.None? then kept
    else if peer.0 in Spellings(kept, format) then kept
    else match parse(peer.0)
      case None => kept
      case Some(ip) => kept + [Neighbor(ip, peer.1.remoteAs.value)]
  }

  function Normalize(kept: seq<Neighbor>, peers: seq<(string, PeerDetails)>, parse: Parser, format: Formatter): seq<Neighbor>
    decreases |peers|
  {
    if peers == [] then kept else Normalize(Admit(kept, peers[0], parse, format), peers[1..], parse, format)
  }

  /** `n` can be read off `peer`: the peer reports "remote_as" and its key parses to `n`'s address. */
  predicate Yields(peer: (string, PeerDetails), n: Neighbor, parse: Parser) {
    peer.1.remoteAs == Some(n.remoteAsn) && parse(peer.0) == Some(n.ipAddress)
  }

  predicate DistinctAddresses(ns: seq<Neighbor>) {
    forall i, j :: 0 <= i < j < |ns| ==> ns[i].ipAddress != ns[j].ipAddress
  }

  /** `str(ip_address(s)) == s` for every string that parses. */
  ghost predicate Canonical(parse: Parser, format: Formatter) {
    forall s :: parse(s).Some? ==> format(parse(s).value) == s
  }

  /** The normaliser, as written. */
  method PeerList(napalmDict: seq<Vrf>, parse: Parser, format: Formatter) returns (bgpPeers: seq<Neighbor>)
    ensures bgpPeers == Normalize([], Traversal(napalmDict), parse, format)
    ensures napalmDict == [] ==> bgpPeers == []
    ensures |bgpPeers| <= |Traversal(napalmDict)|
    ensures forall n :: n in bgpPeers ==> exists p :: p in Traversal(napalmDict) && Yields(p, n, parse)
  {
    bgpPeers := [];
    if napalmDict == [] {
      return;
    }
    ghost var all := Traversal(napalmDict);
    var v := 0;
    while v < |napalmDict|
      invariant 0 <= v <= |napalmDict|
      invariant Normalize([], all, parse, format) == Normalize(bgpPeers, Traversal(napalmDict[v..]), parse, format)
    {
      assert napalmDict[v..][1..] == napalmDict[v + 1..];
      assert Traversal(napalmDict[v..]) == napalmDict[v].peers + Traversal(napalmDict[v + 1..]);
      bgpPeers := AdmitPeers(bgpPeers, napalmDict[v].peers, Traversal(napalmDict[v + 1..]), parse, format);
      v := v + 1;
    }
    assert napalmDict[|napalmDict|..] == [];
    NormalizeBounded([], all, parse, format);
    NormalizeSound([], all, parse, format);
  }

  /** The inner loop, over the peers of one VRF; `tail` is what the traversal visits afterwards. */
  method AdmitPeers(kept: seq<Neighbor>, peers: seq<(string, PeerDetails)>, ghost tail: seq<(string, PeerDetails)>, parse: Parser, format: Formatter)
    returns (bgpPeers: seq<Neighbor>)
    ensures Normalize(bgpPeers, tail, parse, format) == Normalize(kept, peers + tail, parse, format)
  {
    bgpPeers := kept;
    var k := 0;
    assert peers[0..] == peers;
    while k < |peers|
      invariant 0 <= k <= |peers|
      invariant Normalize(kept, peers + tail, parse, format) == Normalize(bgpPeers, peers[k..] + tail, parse, format)
    {
      var rest := peers[k..] + tail;
      assert rest[0] == peers[k] && rest[1..] == peers[k + 1..] + tail;
      var (ip, details) := peers[k];
      if details.remoteAs.None? {
        // no "remote_as": ignored
      } else if ip in Spellings(bgpPeers, format) {
        // duplicate neighbor
      } else {
        match parse(ip) {
          case None =>
            // malformed address: ignored, the traversal goes on
          case Some(address) =>
            bgpPeers := bgpPeers + [Neighbor(address, details.remoteAs.value)];
        }
      }
      k := k + 1;
    }
    assert peers[|peers|..] + tail == tail;
  }

  lemma {:induction false} NormalizeBounded(kept: seq<Neighbor>, peers: seq<(string, PeerDetails)>, parse: Parser, format: Formatter)
    ensures |kept| <= |Normalize(kept, peers, parse, format)| <= |kept| + |peers|
    ensures Normalize(kept, peers, parse, format)[..|kept|] == kept
    decreases |peers|
  {
    if peers != [] {
      NormalizeBounded(Admit(kept, peers[0], parse, format), peers[1..], parse, format);
    }
  }

  /** Every entry comes from a peer that reports "remote_as" and whose key parses to the entry's address. */
  lemma {:induction false} NormalizeSound(kept: seq<Neighbor>, peers: seq<(string, PeerDetails)>, parse: Parser, format: Formatter)
    ensures forall n :: n in Normalize(kept, peers, parse, format) ==> n in kept || exists p :: p in peers && Yields(p, n, parse)
    decreases |peers|
  {
    if peers != [] {
      var next := Admit(kept, peers[0], parse, format);
      NormalizeSound(next, peers[1..], parse, format);
      forall n | n in Normalize(kept, peers, parse, format)
        ensures n in kept || exists p :: p in peers && Yields(p, n, parse)
      {
        if n !in kept {
          if n in next {
            assert Yields(peers[0], n, parse);
          } else {
            var p :| p in peers[1..] && Yields(p, n, parse);
            assert p in peers;
          }
        }
      }
    }
  }

  /** With a canonical printer, every kept address parses back from its own spelling. */
  ghost predicate RoundTrips(kept: seq<Neighbor>, parse: Parser, format: Formatter) {
    forall n :: n in kept ==> parse(format(n.ipAddress)) == Some(n.ipAddress)
  }

  /** When the printer is canonical, the string check catches every duplicate address. */
  lemma {:induction false} NormalizeDistinctWhenCanonical(kept: seq<Neighbor>, peers: seq<(string, PeerDetails)>, parse: Parser, format: Formatter)
    requires Canonical(parse, format)
    requires DistinctAddresses(kept)
    ensures DistinctAddresses(Normalize(kept, peers, parse, format))
    decreases |peers|
  {
    if peers != [] {
      var next := Admit(kept, peers[0], parse, format);
      if next != kept {
        var ip := parse(peers[0].0).value;
        assert format(ip) == peers[0].0;
        forall i | 0 <= i < |kept| ensures kept[i].ipAddress != ip {
          assert Spellings(kept, format)[i] == format(kept[i].ipAddress);
        }
      }
      NormalizeDistinctWhenCanonical(next, peers[1..], parse, format);
    }
  }

  // ---- The corrected normaliser: duplicates are detected on the parsed address ----------

  function Addresses(kept: seq<Neighbor>): seq<Ip> {
    seq(|kept|, i requires 0 <= i < |kept| => kept[i].ipAddress)
  }

  lemma AddressesAppend(kept: seq<Neighbor>, n: Neighbor)
    ensures Addresses(kept + [n]) == Addresses(kept) + [n.ipAddress]
  {
  }

  function AdmitByAddress(kept: seq<Neighbor>, peer: (string, PeerDetails), parse: Parser): seq<Neighbor> {
    if peer.1.remoteAs.None? then kept
    else match parse(peer.0)
      case None => kept
      case Some(ip) => if ip in Addresses(kept) then kept else kept + [Neighbor(ip, peer.1.remoteAs.value)]
  }

  function NormalizeByAddress(kept: seq<Neighbor>, peers: seq<(string, PeerDetails)>, parse: Parser): seq<Neighbor>
    decreases |peers|
  {
    if peers == [] then kept else NormalizeByAddress(AdmitByAddress(kept, peers[0], parse), peers[1..], parse)
  }

  /** The neighbor list with one entry per address, whatever the spelling of the keys. */
  function DistinctPeerList(napalmDict: seq<Vrf>, parse: Parser): seq<Neighbor> {
    NormalizeByAddress([], Traversal(napalmDict), parse)
  }

  lemma {:induction false} NormalizeByAddressDistinct(kept: seq<Neighbor>, peers: seq<(string, PeerDetails)>, parse: Parser)
    requires DistinctAddresses(kept)
    ensures DistinctAddresses(NormalizeByAddress(kept, peers, parse))
    ensures forall n :: n in kept ==> n in NormalizeByAddress(kept, peers, parse)
    ensures forall n :: n in NormalizeByAddress(kept, peers, parse) ==> n in kept || exists p :: p in peers && Yields(p, n, parse)
    ensures |NormalizeByAddress(kept, peers, parse)| <= |kept| + |peers|
    decreases |peers|
  {
    if peers != [] {
      var next := AdmitByAddress(kept, peers[0], parse);
      if next != kept {
        var ip := parse(peers[0].0).value;
        forall i | 0 <= i < |kept| ensures kept[i].ipAddress != ip {
          assert Addresses(kept)[i] == kept[i].ipAddress;
        }
      }
      NormalizeByAddressDistinct(next, peers[1..], parse);
      forall n | n in NormalizeByAddress(kept, peers, parse)
        ensures n in kept || exists p :: p in peers && Yields(p, n, parse)
      {
        if n !in kept {
          if n in next {
            assert Yields(peers[0], n, parse);
          } else {
            var p :| p in peers[1..] && Yields(p, n, parse);
            assert p in peers;
          }
        }
      }
    }
  }

  /** Every address that some usable peer yields is present: later duplicates never erase it. */
  lemma {:induction false} NormalizeByAddressComplete(kept: seq<Neighbor>, peers: seq<(string, PeerDetails)>, parse: Parser, p: (string, PeerDetails), n: Neighbor)
    requires p in peers && Yields(p, n, parse)
    ensures n.ipAddress in Addresses(NormalizeByAddress(kept, peers, parse))
    decreases |peers|
  {
    var next := AdmitByAddress(kept, peers[0], parse);
    AddressesGrow(next, peers[1..], parse);
    if next != kept {
      AddressesAppend(kept, Neighbor(parse(peers[0].0).value, peers[0].1.remoteAs.value));
    }
    if p == peers[0] {
      assert n.ipAddress in Addresses(next);
    } else {
      NormalizeByAddressComplete(next, peers[1..], parse, p, n);
    }
  }

  lemma {:induction false} AddressesGrow(kept: seq<Neighbor>, peers: seq<(string, PeerDetails)>, parse: Parser)
    ensures forall a :: a in Addresses(kept) ==> a in Addresses(NormalizeByAddress(kept, peers, parse))
    decreases |peers|
  {
    if peers != [] {
      var next := AdmitByAddress(kept, peers[0], parse);
      if next != kept {
        AddressesAppend(kept, Neighbor(parse(peers[0].0).value, peers[0].1.remoteAs.value));
      }
      AddressesGrow(next, peers[1..], parse);
    }
  }

  /**
   * The first occurrence wins: the peer at index `t` is the first usable one with its address,
   * so the entry it yields is the one in the result.
   */
  lemma {:induction false} NormalizeByAddressFirstWins(kept: seq<Neighbor>, peers: seq<(string, PeerDetails)>, parse: Parser, t: nat, n: Neighbor)
    requires t < |peers| && Yields(peers[t], n, parse)
    requires n.ipAddress !in Addresses(kept)
    requires forall u :: 0 <= u < t && peers[u].1.remoteAs.Some? ==> parse(peers[u].0) != Some(n.ipAddress)
    ensures n in NormalizeByAddress(kept, peers, parse)
    decreases |peers|
  {
    var next := AdmitByAddress(kept, peers[0], parse);
    if next != kept {
      AddressesAppend(kept, Neighbor(parse(peers[0].0).value, peers[0].1.remoteAs.value));
    }
    if t == 0 {
      assert n in next;
      KeptStays(next, peers[1..], parse);
    } else {
      assert n.ipAddress !in Addresses(next);
      forall u | 0 <= u < t - 1 && peers[1..][u].1.remoteAs.Some?
        ensures parse(peers[1..][u].0) != Some(n.ipAddress)
      {
        assert peers[1..][u] == peers[u + 1];
      }
      NormalizeByAddressFirstWins(next, peers[1..], parse, t - 1, n);
    }
  }

  lemma {:induction false} KeptStays(kept: seq<Neighbor>, peers: seq<(string, PeerDetails)>, parse: Parser)
    ensures forall n :: n in kept ==> n in NormalizeByAddress(kept, peers, parse)
    decreases |peers|
  {
    if peers != [] {
      KeptStays(AdmitByAddress(kept, peers[0], parse), peers[1..], parse);
    }
  }

  lemma RoundTripsAppend(kept: seq<Neighbor>, n: Neighbor, parse: Parser, format: Formatter)
    requires Canonical(parse, format) && RoundTrips(kept, parse, format)
    requires exists s :: parse(s) == Some(n.ipAddress)
    ensures RoundTrips(kept + [n], parse, format)
  {
    var s :| parse(s) == Some(n.ipAddress);
    assert format(n.ipAddress) == s;
  }

  /** With a canonical printer, the code as written and the corrected normaliser agree. */
  lemma {:induction false} PeerListAgreesWhenCanonical(kept: seq<Neighbor>, peers: seq<(string, PeerDetails)>, parse: Parser, format: Formatter)
    requires Canonical(parse, format)
    requires RoundTrips(kept, parse, format)
    ensures Normalize(kept, peers, parse, format) == NormalizeByAddress(kept, peers, parse)
    decreases |peers|
  {
    if peers != [] {
      var p := peers[0];
      var a := Admit(kept, p, parse, format);
      var b := AdmitByAddress(kept, p, parse);
      if p.1.remoteAs.Some? && parse(p.0).Some? {
        var ip := parse(p.0).value;
        assert format(ip) == p.0;
        forall i | 0 <= i < |kept|
          ensures Spellings(kept, format)[i] == p.0 <==> Addresses(kept)[i] == ip
        {
          assert parse(format(kept[i].ipAddress)) == Some(kept[i].ipAddress);
        }
        assert p.0 in Spellings(kept, format) <==> ip in Addresses(kept);
        if ip !in Addresses(kept) {
          RoundTripsAppend(kept, Neighbor(ip, p.1.remoteAs.value), parse, format);
        }
      }
      assert a == b;
      PeerListAgreesWhenCanonical(a, peers[1..], parse, format);
    }
  }

  // ---- A case where the string check lets a duplicate address through --------------------

  const DOC_ADDRESS := Ip(V6, 0x2001_0db8_0000_0000_0000_0000_0000_0001)

  /** `ipaddress.ip_address` on the two spellings of 2001:db8::1 used below. */
  function TwoSpellingParser(s: string): Option<Ip> {
    if s == "2001:db8::1" || s == "2001:DB8::1" then Some(DOC_ADDRESS) else None
  }

  function CanonicalPrinter(ip: Ip): string {
    "2001:db8::1"
  }

  /**
   * One VRF reports the canonical spelling, then the upper-case spelling of the same address:
   * the code as written keeps both, so the list holds the address twice; the corrected
   * normaliser keeps it once.
   */
  lemma PeerListKeepsSpellingDuplicates()
    ensures var vrfs := [Vrf("default", [("2001:db8::1", PeerDetails(Some(65001))), ("2001:DB8::1", PeerDetails(Some(65001)))])];
            var asWritten := Normalize([], Traversal(vrfs), TwoSpellingParser, CanonicalPrinter);
            && |asWritten| == 2
            && asWritten[0].ipAddress == asWritten[1].ipAddress
            && DistinctPeerList(vrfs, TwoSpellingParser) == [Neighbor(DOC_ADDRESS, 65001)]
  {
    var peers := [("2001:db8::1", PeerDetails(Some(65001))), ("2001:DB8::1", PeerDetails(Some(65001)))];
    var vrfs := [Vrf("default", peers)];
    assert Traversal(vrfs[1..]) == [];
    assert Traversal(vrfs) == peers;
    var first := [Neighbor(DOC_ADDRESS, 65001)];
    assert Admit([], peers[0], TwoSpellingParser, CanonicalPrinter) == first;
    assert Spellings(first, CanonicalPrinter) == ["2001:db8::1"];
    assert "2001:DB8::1" != "2001:db8::1";
    assert Admit(first, peers[1], TwoSpellingParser, CanonicalPrinter) == first + first;
    assert peers[1..][1..] == [];
    assert AdmitByAddress([], peers[0], TwoSpellingParser) == first;
    assert Addresses(first) == [DOC_ADDRESS];
    assert AdmitByAddress(first, peers[1], TwoSpellingParser) == first;
  }
}
