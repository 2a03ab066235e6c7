/**
 * NAPALM's `get_bgp_neighbors_detail` output (VRF -> ASN -> [detail]) and the two ways the
 * router reads it: `Router.bgp_neighbors_detail_as_list` and `Router.find_bgp_neighbor_detail`.
 */
module NeighborDetails {
  import opened Wrappers
  import opened Net

  /** The keys of one detail record that the core reads. */
  datatype NeighborDetail = NeighborDetail(
    remoteAddress: string, connectionState: string, receivedPrefixCount: int, advertisedPrefixCount: int)

  datatype AsnNeighbors = AsnNeighbors(asn: int, neighbors: seq<NeighborDetail>)

  datatype VrfDetail = VrfDetail(name: string, asns: seq<AsnNeighbors>)

  /**
   * What the device adapter returns: `NoData` is the empty list returned when the device
   * could not be opened; `Vrfs` is the dictionary, in iteration order.
   */
  datatype NeighborsDetail = NoData | Vrfs(vrfs: seq<VrfDetail>)

  /** `not bgp_neighbors_detail`: an empty list or an empty dictionary. */
  predicate IsEmpty(d: NeighborsDetail) {
    d.NoData? || d.vrfs == []
  }

  function FlattenAsns(asns: seq<AsnNeighbors>): seq<NeighborDetail> {
    if asns == [] then [] else asns[0].neighbors + FlattenAsns(asns[1..])
  }

  function FlattenVrfs(vrfs: seq<VrfDetail>): seq<NeighborDetail> {
    if vrfs == [] then [] else FlattenAsns(vrfs[0].asns) + FlattenVrfs(vrfs[1..])
  }

  /** Every detail record, VRF after VRF and, inside a VRF, ASN after ASN. */
  function Flatten(d: NeighborsDetail): seq<NeighborDetail> {
    if d.NoData? then [] else FlattenVrfs(d.vrfs)
  }

  /** The number of records, counted list by list. */
  function CountAsns(asns: seq<AsnNeighbors>): nat {
    if asns == [] then 0 else |asns[0].neighbors| + CountAsns(asns[1..])
  }

  function CountVrfs(vrfs: seq<VrfDetail>): nat {
    if vrfs == [] then 0 else CountAsns(vrfs[0].asns) + CountVrfs(vrfs[1..])
  }

  /** `bgp_neighbors_detail_as_list`: extends one list with every inner list. */
  method DetailsAsList(bgpNeighborsDetail: NeighborsDetail) returns (flattened: seq<NeighborDetail>)
    ensures flattened == Flatten(bgpNeighborsDetail)
    ensures IsEmpty(bgpNeighborsDetail) ==> flattened == []
  {
    flattened := [];
    if IsEmpty(bgpNeighborsDetail) {
      return;
    }
    var vrfs := bgpNeighborsDetail.vrfs;
    var v := 0;
    while v < |vrfs|
      invariant 0 <= v <= |vrfs|
      invariant flattened + FlattenVrfs(vrfs[v..]) == FlattenVrfs(vrfs)
    {
      assert vrfs[v..][1..] == vrfs[v + 1..];
      ghost var rest := FlattenVrfs(vrfs[v + 1..]);
      ghost var before := flattened;
      flattened := ExtendWithAsns(flattened, vrfs[v].asns);
      assert before + (FlattenAsns(vrfs[v].asns) + rest) == flattened + rest;
      v := v + 1;
    }
    assert vrfs[|vrfs|..] == [];
  }

  /** The inner loop of `bgp_neighbors_detail_as_list`, over the ASNs of one VRF. */
  method ExtendWithAsns(start: seq<NeighborDetail>, asns: seq<AsnNeighbors>) returns (flattened: seq<NeighborDetail>)
    ensures flattened == start + FlattenAsns(asns)
  {
    flattened := start;
    var a := 0;
    assert asns[0..] == asns;
    while a < |asns|
      invariant 0 <= a <= |asns|
      invariant flattened + FlattenAsns(asns[a..]) == start + FlattenAsns(asns)
    {
      assert asns[a..][1..] == asns[a + 1..];
      assert FlattenAsns(asns[a..]) == asns[a].neighbors + FlattenAsns(asns[a + 1..]);
      assert flattened + FlattenAsns(asns[a..]) == (flattened + asns[a].neighbors) + FlattenAsns(asns[a + 1..]);
      flattened := flattened + asns[a].neighbors;
      a := a + 1;
    }
    assert asns[|asns|..] == [];
  }

  /** The flat list is exactly as long as all inner lists together. */
  lemma {:induction false} FlattenLength(d: NeighborsDetail)
    ensures d.Vrfs? ==> |Flatten(d)| == CountVrfs(d.vrfs)
    ensures d.NoData? ==> Flatten(d) == []
  {
    if d.Vrfs? {
      FlattenVrfsLength(d.vrfs);
    }
  }

  lemma {:induction false} FlattenVrfsLength(vrfs: seq<VrfDetail>)
    ensures |FlattenVrfs(vrfs)| == CountVrfs(vrfs)
  {
    if vrfs != [] {
      FlattenAsnsLength(vrfs[0].asns);
      FlattenVrfsLength(vrfs[1..]);
    }
  }

  lemma {:induction false} FlattenAsnsLength(asns: seq<AsnNeighbors>)
    ensures |FlattenAsns(asns)| == CountAsns(asns)
  {
    if asns != [] {
      FlattenAsnsLength(asns[1..]);
    }
  }

  /** A record is in the flat list exactly when some VRF lists it under some ASN. */
  lemma {:induction false} FlattenMembership(d: NeighborsDetail, x: NeighborDetail)
    ensures x in Flatten(d) <==> d.Vrfs? && exists v, a :: v in d.vrfs && a in v.asns && x in a.neighbors
  {
    if d.Vrfs? {
      FlattenVrfsMembership(d.vrfs, x);
    }
  }

  lemma {:induction false} FlattenVrfsMembership(vrfs: seq<VrfDetail>, x: NeighborDetail)
    ensures x in FlattenVrfs(vrfs) <==> exists v, a :: v in vrfs && a in v.asns && x in a.neighbors
  {
    if vrfs != [] {
      FlattenAsnsMembership(vrfs[0].asns, x);
      FlattenVrfsMembership(vrfs[1..], x);
      if x in FlattenVrfs(vrfs) {
        if x !in FlattenAsns(vrfs[0].asns) {
          var v, a :| v in vrfs[1..] && a in v.asns && x in a.neighbors;
          assert v in vrfs;
        }
      } else {
        forall v, a | v in vrfs && a in v.asns ensures x !in a.neighbors {
          if v != vrfs[0] {
            assert v in vrfs[1..];
          }
        }
      }
    }
  }

  lemma {:induction false} FlattenAsnsMembership(asns: seq<AsnNeighbors>, x: NeighborDetail)
    ensures x in FlattenAsns(asns) <==> exists a :: a in asns && x in a.neighbors
  {
    if asns != [] {
      FlattenAsnsMembership(asns[1..], x);
      if x in FlattenAsns(asns) {
        if x !in asns[0].neighbors {
          var a :| a in asns[1..] && x in a.neighbors;
          assert a in asns;
        }
      } else {
        forall a | a in asns ensures x !in a.neighbors {
          if a != asns[0] {
            assert a in asns[1..];
          }
        }
      }
    }
  }

  // ---- find_bgp_neighbor_detail ----------------------------------------------------------

  /** The record's "remote_address" parses, and not to `ip`. */
  predicate ParsesElsewhere(x: NeighborDetail, ip: Ip, parse: string -> Option<Ip>) {
    parse(x.remoteAddress).Some? && parse(x.remoteAddress) != Some(ip)
  }

  /**
   * Scans the records in order: the first whose address equals `ip` is returned; a malformed
   * address met before it raises.
   */
  function FindIn(records: seq<NeighborDetail>, ip: Ip, parse: string -> Option<Ip>): (r: Result<Option<NeighborDetail>>)
    ensures r.Ok? && r.value.Some? ==> r.value.value in records && parse(r.value.value.remoteAddress) == Some(ip)
    ensures r == Ok(None) <==> forall k :: 0 <= k < |records| ==> ParsesElsewhere(records[k], ip, parse)
    ensures r.Err? ==> r.error == InvalidAddress
  {
    if records == [] then Ok(None)
    else match parse(records[0].remoteAddress)
      case None => Err(InvalidAddress)
      case Some(a) =>
        if a == ip then Ok(Some(records[0]))
        else
          var rest := FindIn(records[1..], ip, parse);
          assert forall k :: 1 <= k < |records| ==> records[k] == records[1..][k - 1];
          rest
  }

  /** Record `k` is the first whose address equals `ip`, and every address before it parses. */
  predicate FirstNaming(records: seq<NeighborDetail>, ip: Ip, parse: string -> Option<Ip>, k: int) {
    && 0 <= k < |records| && parse(records[k].remoteAddress) == Some(ip)
    && forall j :: 0 <= j < k ==> ParsesElsewhere(records[j], ip, parse)
  }

  /** Record `k` is the first whose address does not parse, and no earlier one equals `ip`. */
  predicate MalformedFirst(records: seq<NeighborDetail>, ip: Ip, parse: string -> Option<Ip>, k: int) {
    && 0 <= k < |records| && parse(records[k].remoteAddress).None?
    && forall j :: 0 <= j < k ==> ParsesElsewhere(records[j], ip, parse)
  }

  /** `FindReturnsFirst` and `FindRaisesOnMalformed` for every position at once. */
  lemma FindCases(records: seq<NeighborDetail>, ip: Ip, parse: string -> Option<Ip>)
    ensures forall k :: FirstNaming(records, ip, parse, k) ==> FindIn(records, ip, parse) == Ok(Some(records[k]))
    ensures forall k :: MalformedFirst(records, ip, parse, k) ==> FindIn(records, ip, parse) == Err(InvalidAddress)
  {
    forall k | FirstNaming(records, ip, parse, k) ensures FindIn(records, ip, parse) == Ok(Some(records[k])) {
      FindReturnsFirst(records, ip, parse, k);
    }
    forall k | MalformedFirst(records, ip, parse, k) ensures FindIn(records, ip, parse) == Err(InvalidAddress) {
      FindRaisesOnMalformed(records, ip, parse, k);
    }
  }

  /**
   * `find_bgp_neighbor_detail`: anything but a dictionary yields `None`; otherwise the first
   * record naming `ip`, `None` when every address parses to another one, and a raise when a
   * malformed address comes first.
   */
  function FindNeighborDetail(bgpNeighbors: NeighborsDetail, ip: Ip, parse: string -> Option<Ip>): (r: Result<Option<NeighborDetail>>)
    ensures bgpNeighbors.NoData? ==> r == Ok(None)
    ensures forall k :: FirstNaming(Flatten(bgpNeighbors), ip, parse, k) ==> r == Ok(Some(Flatten(bgpNeighbors)[k]))
    ensures forall k :: MalformedFirst(Flatten(bgpNeighbors), ip, parse, k) ==> r == Err(InvalidAddress)
    ensures r == Ok(None) <==>
      forall k :: 0 <= k < |Flatten(bgpNeighbors)| ==> ParsesElsewhere(Flatten(bgpNeighbors)[k], ip, parse)
    ensures r.Err? ==> r.error == InvalidAddress
  {
    FindCases(Flatten(bgpNeighbors), ip, parse);
    if bgpNeighbors.NoData? then Ok(None) else FindIn(Flatten(bgpNeighbors), ip, parse)
  }

  /** The first record whose address equals `ip` is the one returned, when every earlier address parses. */
  lemma {:induction false} FindReturnsFirst(records: seq<NeighborDetail>, ip: Ip, parse: string -> Option<Ip>, k: nat)
    requires k < |records| && parse(records[k].remoteAddress) == Some(ip)
    requires forall j :: 0 <= j < k ==> ParsesElsewhere(records[j], ip, parse)
    ensures FindIn(records, ip, parse) == Ok(Some(records[k]))
  {
    if k > 0 {
      assert ParsesElsewhere(records[0], ip, parse);
      forall j | 0 <= j < k - 1 ensures ParsesElsewhere(records[1..][j], ip, parse) {
        assert records[1..][j] == records[j + 1];
      }
      FindReturnsFirst(records[1..], ip, parse, k - 1);
    }
  }

  /** A malformed address met before any match makes the search raise. */
  lemma {:induction false} FindRaisesOnMalformed(records: seq<NeighborDetail>, ip: Ip, parse: string -> Option<Ip>, k: nat)
    requires k < |records| && parse(records[k].remoteAddress).None?
    requires forall j :: 0 <= j < k ==> ParsesElsewhere(records[j], ip, parse)
    ensures FindIn(records, ip, parse) == Err(InvalidAddress)
  {
    if k > 0 {
      assert ParsesElsewhere(records[0], ip, parse);
      forall j | 0 <= j < k - 1 ensures ParsesElsewhere(records[1..][j], ip, parse) {
        assert records[1..][j] == records[j + 1];
      }
      FindRaisesOnMalformed(records[1..], ip, parse, k - 1);
    }
  }
}
