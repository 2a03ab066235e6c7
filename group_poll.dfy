/**
 * `BGPGroup.poll_peering_sessions`: asks every router that carries a session of the group for
 * its BGP neighbours (once per router), then refreshes each session of the group that a router
 * reports, inside one transaction.
 */
module BgpGroups {
  import opened Wrappers
  import opened Net
  import opened Records
  import opened NeighborDetails
  import opened SessionUpdates
  import opened Queries

  /** The group's rows and its own record after a poll, with what the poll returned. */
  datatype GroupPollOutcome = GroupPollOutcome(result: Result<bool>, sessions: seq<DirectSession>, group: BgpGroup)

  /** `DirectPeeringSession.objects.filter(bgp_group=group)`, in table order. */
  function GroupSessions(sessions: seq<DirectSession>, gid: GroupId): (r: seq<DirectSession>)
    ensures forall s :: s in r <==> s in sessions && s.group == Some(gid)
    ensures |r| <= |sessions|
  {
    if sessions == [] then []
    else
      var rest := GroupSessions(sessions[1..], gid);
      assert forall s :: s in sessions <==> s == sessions[0] || s in sessions[1..];
      (if sessions[0].group == Some(gid) then [sessions[0]] else []) + rest
  }

  /**
   * The routers the poll queries, in the order it first meets them; a session without a
   * router makes the poll call a method on `None`.
   */
  function RoutersOf(gs: seq<DirectSession>, seen: seq<RouterId>): (r: Result<seq<RouterId>>)
    ensures r.Err? <==> exists j :: 0 <= j < |gs| && gs[j].router.None?
    ensures r.Err? ==> r.error == AttributeError
  {
    if gs == [] then Ok(seen)
    else
      assert forall j :: 1 <= j < |gs| ==> gs[j] == gs[1..][j - 1];
      match gs[0].router
      case None => Err(AttributeError)
      case Some(rid) => RoutersOf(gs[1..], if rid in seen then seen else seen + [rid])
  }

  /** The row `get(ip_address=..., bgp_group=group, router=router)` looks for. */
  predicate Targets(s: DirectSession, gid: GroupId, rid: RouterId, ip: Ip) {
    s.group == Some(gid) && s.router == Some(rid) && s.ip == ip
  }

  /**
   * One record reported by router `rid`: a malformed address raises, no matching row is
   * skipped, one matching row is refreshed, two or more raise.
   */
  function ApplyRecord(
    sessions: seq<DirectSession>, gid: GroupId, rid: RouterId, d: NeighborDetail,
    parse: string -> Option<Ip>, now: Time): (r: Result<seq<DirectSession>>)
    ensures r == Err(InvalidAddress) <==> parse(d.remoteAddress).None?
    ensures r.Err? ==> r.error in {InvalidAddress, MultipleObjectsReturned}
    ensures parse(d.remoteAddress).Some? ==>
      (r == Err(MultipleObjectsReturned) <==>
        exists j, k :: 0 <= j < k < |sessions|
          && Targets(sessions[j], gid, rid, parse(d.remoteAddress).value)
          && Targets(sessions[k], gid, rid, parse(d.remoteAddress).value))
    ensures r.Ok? ==> |r.value| == |sessions|
    ensures r.Ok? ==> forall i :: 0 <= i < |sessions| ==>
      r.value[i] == if Targets(sessions[i], gid, rid, parse(d.remoteAddress).value)
                    then sessions[i].(state := Refresh(sessions[i].state, d, now))
                    else sessions[i]
  {
    match parse(d.remoteAddress)
    case None => Err(InvalidAddress)
    case Some(ip) =>
      match Get(sessions, s => Targets(s, gid, rid, ip))
      case NotFound => Ok(sessions)
      case Multiple => Err(MultipleObjectsReturned)
      case Found(i) => Ok(sessions[i := sessions[i].(state := Refresh(sessions[i].state, d, now))])
  }

  /** The records of one router, in order; the first error ends the poll. */
  function ApplyRecords(
    sessions: seq<DirectSession>, gid: GroupId, rid: RouterId, records: seq<NeighborDetail>,
    parse: string -> Option<Ip>, now: Time): Result<seq<DirectSession>>
    decreases |records|
  {
    if records == [] then Ok(sessions)
    else match ApplyRecord(sessions, gid, rid, records[0], parse, now)
      case Err(e) => Err(e)
      case Ok(next) => ApplyRecords(next, gid, rid, records[1..], parse, now)
  }

  /** The routers in the order they were queried, each with its flattened neighbour list. */
  function ApplyRouters(
    sessions: seq<DirectSession>, gid: GroupId, routers: seq<RouterId>,
    fetch: RouterId -> NeighborsDetail, parse: string -> Option<Ip>, now: Time): Result<seq<DirectSession>>
    decreases |routers|
  {
    if routers == [] then Ok(sessions)
    else match ApplyRecords(sessions, gid, routers[0], Flatten(fetch(routers[0])), parse, now)
      case Err(e) => Err(e)
      case Ok(next) => ApplyRouters(next, gid, routers[1..], fetch, parse, now)
  }

  /** Continues with the remaining routers once one router's records are applied. */
  function Then(
    step: Result<seq<DirectSession>>, gid: GroupId, routers: seq<RouterId>,
    fetch: RouterId -> NeighborsDetail, parse: string -> Option<Ip>, now: Time): Result<seq<DirectSession>>
  {
    match step
    case Err(e) => Err(e)
    case Ok(next) => ApplyRouters(next, gid, routers, fetch, parse, now)
  }

  /** The whole poll; any error rolls the transaction back. */
  function GroupPoll(
    group: BgpGroup, sessions: seq<DirectSession>, fetch: RouterId -> NeighborsDetail,
    parse: string -> Option<Ip>, now: Time): GroupPollOutcome
  {
    if !group.checkStates then GroupPollOutcome(Ok(false), sessions, group)
    else
      var gs := GroupSessions(sessions, group.id);
      if gs == [] then GroupPollOutcome(Ok(false), sessions, group)
      else match RoutersOf(gs, [])
        case Err(e) => GroupPollOutcome(Err(e), sessions, group)
        case Ok(order) =>
          if order == [] then GroupPollOutcome(Ok(false), sessions, group)
          else match ApplyRouters(sessions, group.id, order, fetch, parse, now)
            case Err(e) => GroupPollOutcome(Err(e), sessions, group)
            case Ok(polled) => GroupPollOutcome(Ok(true), polled, group.(statesUpdate := Some(now)))
  }

  /**
   * The first half of the poll: asks each router of the group for its neighbours once, in
   * the order the sessions name them, and keeps each flattened answer.
   */
  method QueryRouters(peeringSessions: seq<DirectSession>, fetch: RouterId -> NeighborsDetail)
    returns (routers: Result<seq<RouterId>>, queried: seq<RouterId>, cache: map<RouterId, seq<NeighborDetail>>)
    ensures routers == RoutersOf(peeringSessions, [])
    ensures routers.Ok? ==> queried == routers.value
    ensures Distinct(queried)
    ensures forall r :: r in queried ==> exists j :: 0 <= j < |peeringSessions| && peeringSessions[j].router == Some(r)
    ensures routers.Ok? ==> forall j :: 0 <= j < |peeringSessions| ==>
      peeringSessions[j].router.Some? && peeringSessions[j].router.value in queried
    ensures forall r :: r in cache <==> r in queried
    ensures forall r :: r in cache ==> cache[r] == Flatten(fetch(r))
  {
    cache, queried := map[], [];
    var k := 0;
    while k < |peeringSessions|
      invariant 0 <= k <= |peeringSessions|
      invariant RoutersOf(peeringSessions, []) == RoutersOf(peeringSessions[k..], queried)
      invariant forall r :: r in cache <==> r in queried
      invariant forall r :: r in cache ==> cache[r] == Flatten(fetch(r))
      invariant Distinct(queried)
      invariant forall r :: r in queried ==> exists j :: 0 <= j < k && peeringSessions[j].router == Some(r)
      invariant forall j :: 0 <= j < k ==> peeringSessions[j].router.Some? && peeringSessions[j].router.value in queried
    {
      assert peeringSessions[k..][1..] == peeringSessions[k + 1..];
      match peeringSessions[k].router {
        case None =>
          return Err(AttributeError), queried, cache;
        case Some(r) =>
          if r !in cache {
            var detail := fetch(r);
            var flattened := DetailsAsList(detail);
            cache := cache[r := flattened];
            queried := queried + [r];
          }
      }
      k := k + 1;
    }
    assert peeringSessions[|peeringSessions|..] == [];
    routers := Ok(queried);
  }

  /** One router's cached records applied in turn; the first error stops. */
  method ApplyRouterRecords(
    sessions: seq<DirectSession>, gid: GroupId, rid: RouterId, records: seq<NeighborDetail>,
    parse: string -> Option<Ip>, now: Time) returns (r: Result<seq<DirectSession>>)
    ensures r == ApplyRecords(sessions, gid, rid, records, parse, now)
  {
    var current := sessions;
    var j := 0;
    while j < |records|
      invariant 0 <= j <= |records|
      invariant ApplyRecords(sessions, gid, rid, records, parse, now) == ApplyRecords(current, gid, rid, records[j..], parse, now)
    {
      assert records[j..][1..] == records[j + 1..];
      var step := ApplyRecord(current, gid, rid, records[j], parse, now);
      match step {
        case Err(e) =>
          return Err(e);
        case Ok(next) =>
          current := next;
      }
      j := j + 1;
    }
    assert records[|records|..] == [];
    r := Ok(current);
  }

  /** The second half of the poll: every queried router's records, router after router. */
  method ApplyCached(
    sessions: seq<DirectSession>, gid: GroupId, order: seq<RouterId>, cache: map<RouterId, seq<NeighborDetail>>,
    fetch: RouterId -> NeighborsDetail, parse: string -> Option<Ip>, now: Time) returns (r: Result<seq<DirectSession>>)
    requires forall rid :: rid in order ==> rid in cache && cache[rid] == Flatten(fetch(rid))
    ensures r == ApplyRouters(sessions, gid, order, fetch, parse, now)
  {
    var current := sessions;
    var i := 0;
    while i < |order|
      invariant 0 <= i <= |order|
      invariant ApplyRouters(sessions, gid, order, fetch, parse, now) == ApplyRouters(current, gid, order[i..], fetch, parse, now)
    {
      assert order[i..][1..] == order[i + 1..];
      var step := ApplyRouterRecords(current, gid, order[i], cache[order[i]], parse, now);
      match step {
        case Err(e) =>
          return Err(e);
        case Ok(next) =>
          current := next;
      }
      i := i + 1;
    }
    assert order[|order|..] == [];
    r := Ok(current);
  }

  /**
   * `BGPGroup.poll_peering_sessions`. `queried` lists the routers asked for their
   * neighbours, in order: each router of the group at most once.
   */
  method PollPeeringSessions(
    group: BgpGroup, sessions: seq<DirectSession>, fetch: RouterId -> NeighborsDetail,
    parse: string -> Option<Ip>, now: Time)
    returns (result: Result<bool>, updated: seq<DirectSession>, updatedGroup: BgpGroup, queried: seq<RouterId>)
    ensures GroupPollOutcome(result, updated, updatedGroup) == GroupPoll(group, sessions, fetch, parse, now)
    ensures Distinct(queried)
    ensures forall r :: r in queried ==> exists s :: s in sessions && s.group == Some(group.id) && s.router == Some(r)
    ensures group.checkStates && result != Err(AttributeError) ==>
      forall s :: s in sessions && s.group == Some(group.id) ==> s.router.Some? && s.router.value in queried
  {
    if !group.checkStates {
      return Ok(false), sessions, group, [];
    }
    var peeringSessions := GroupSessions(sessions, group.id);
    if peeringSessions == [] {
      return Ok(false), sessions, group, [];
    }
    var routers, cache;
    routers, queried, cache := QueryRouters(peeringSessions, fetch);
    forall r | r in queried
      ensures exists s :: s in sessions && s.group == Some(group.id) && s.router == Some(r)
    {
      var j :| 0 <= j < |peeringSessions| && peeringSessions[j].router == Some(r);
      assert peeringSessions[j] in peeringSessions;
    }
    if routers.Err? {
      return Err(routers.error), sessions, group, queried;
    }
    forall s | s in sessions && s.group == Some(group.id)
      ensures s.router.Some? && s.router.value in queried
    {
      assert s in peeringSessions;
      var j :| 0 <= j < |peeringSessions| && peeringSessions[j] == s;
    }
    if |queried| == 0 {
      return Ok(false), sessions, group, queried;
    }
    var polled := ApplyCached(sessions, group.id, queried, cache, fetch, parse, now);
    if polled.Err? {
      return Err(polled.error), sessions, group, queried;
    }
    result, updated, updatedGroup := Ok(true), polled.value, group.(statesUpdate := Some(now));
  }

  /** With the check disabled, or no session in the group, the poll answers false and writes nothing. */
  lemma GroupPollDeclines(
    group: BgpGroup, sessions: seq<DirectSession>, fetch: RouterId -> NeighborsDetail,
    parse: string -> Option<Ip>, now: Time)
    requires !group.checkStates || forall s :: s in sessions ==> s.group != Some(group.id)
    ensures GroupPoll(group, sessions, fetch, parse, now) == GroupPollOutcome(Ok(false), sessions, group)
  {
  }

  // ---- What a successful poll does to each session ----------------------------------------

  /** The same key fields: only the state of a session is ever rewritten. */
  predicate SameKey(a: DirectSession, b: DirectSession) {
    a.asn == b.asn && a.ip == b.ip && a.group == b.group && a.router == b.router
  }

  /**
   * The reference definition, one session at a time: every record whose address is the
   * session's own refreshes it, in order.
   */
  function StateFold(st: SessionState, ip: Ip, records: seq<NeighborDetail>, parse: string -> Option<Ip>, now: Time): SessionState
    decreases |records|
  {
    if records == [] then st
    else
      var next := if parse(records[0].remoteAddress) == Some(ip) then Refresh(st, records[0], now) else st;
      StateFold(next, ip, records[1..], parse, now)
  }

  /** One router's records applied to the whole table give each of its group sessions its own fold. */
  lemma {:induction false} ApplyRecordsPerSession(
    sessions: seq<DirectSession>, gid: GroupId, rid: RouterId, records: seq<NeighborDetail>,
    parse: string -> Option<Ip>, now: Time, polled: seq<DirectSession>)
    requires ApplyRecords(sessions, gid, rid, records, parse, now) == Ok(polled)
    ensures |polled| == |sessions|
    ensures forall i :: 0 <= i < |sessions| ==>
      polled[i] == if sessions[i].group == Some(gid) && sessions[i].router == Some(rid)
                   then sessions[i].(state := StateFold(sessions[i].state, sessions[i].ip, records, parse, now))
                   else sessions[i]
    decreases |records|
  {
    if records != [] {
      var next := ApplyRecord(sessions, gid, rid, records[0], parse, now).value;
      ApplyRecordsPerSession(next, gid, rid, records[1..], parse, now, polled);
    }
  }

  /** All routers' records applied to the table: each group session gets the fold of its own router's records. */
  lemma {:induction false} ApplyRoutersPerSession(
    sessions: seq<DirectSession>, gid: GroupId, routers: seq<RouterId>,
    fetch: RouterId -> NeighborsDetail, parse: string -> Option<Ip>, now: Time, polled: seq<DirectSession>)
    requires Distinct(routers)
    requires ApplyRouters(sessions, gid, routers, fetch, parse, now) == Ok(polled)
    ensures |polled| == |sessions|
    ensures forall i :: 0 <= i < |sessions| ==>
      polled[i] == if sessions[i].group == Some(gid) && sessions[i].router.Some? && sessions[i].router.value in routers
                   then sessions[i].(state := StateFold(sessions[i].state, sessions[i].ip, Flatten(fetch(sessions[i].router.value)), parse, now))
                   else sessions[i]
    decreases |routers|
  {
    if routers != [] {
      var rid := routers[0];
      var next := ApplyRecords(sessions, gid, rid, Flatten(fetch(rid)), parse, now).value;
      ApplyRecordsPerSession(sessions, gid, rid, Flatten(fetch(rid)), parse, now, next);
      assert Distinct(routers[1..]) by {
        forall a, b | 0 <= a < b < |routers[1..]| ensures routers[1..][a] != routers[1..][b] {
          assert routers[1..][a] == routers[a + 1] && routers[1..][b] == routers[b + 1];
        }
      }
      ApplyRoutersPerSession(next, gid, routers[1..], fetch, parse, now, polled);
      forall i | 0 <= i < |sessions| && sessions[i].router.Some?
        ensures sessions[i].router.value in routers <==> sessions[i].router.value == rid || sessions[i].router.value in routers[1..]
        ensures sessions[i].router.value == rid ==> sessions[i].router.value !in routers[1..]
      {
        if sessions[i].router.value in routers[1..] {
          var b :| 0 <= b < |routers[1..]| && routers[1..][b] == sessions[i].router.value;
          assert routers[b + 1] == sessions[i].router.value;
        }
      }
    }
  }

  /** The routers found are all different, and they are exactly the routers of the sessions. */
  lemma {:induction false} RoutersOfSound(gs: seq<DirectSession>, seen: seq<RouterId>, order: seq<RouterId>)
    requires RoutersOf(gs, seen) == Ok(order)
    requires Distinct(seen)
    ensures Distinct(order)
    ensures forall r :: r in seen ==> r in order
    ensures forall j :: 0 <= j < |gs| ==> gs[j].router.Some? && gs[j].router.value in order
    ensures forall r :: r in order ==> r in seen || exists j :: 0 <= j < |gs| && gs[j].router == Some(r)
    decreases |gs|
  {
    if gs != [] {
      var rid := gs[0].router.value;
      var seen' := if rid in seen then seen else seen + [rid];
      assert Distinct(seen') by {
        if rid !in seen {
          forall a, b | 0 <= a < b < |seen'| ensures seen'[a] != seen'[b] {
            if b == |seen| {
              assert seen'[a] == seen[a];
            }
          }
        }
      }
      RoutersOfSound(gs[1..], seen', order);
      forall j | 0 <= j < |gs| ensures gs[j].router.Some? && gs[j].router.value in order {
        if j > 0 {
          assert gs[j] == gs[1..][j - 1];
        }
      }
      forall r | r in order ensures r in seen || exists j :: 0 <= j < |gs| && gs[j].router == Some(r) {
        if r !in seen' {
          var j :| 0 <= j < |gs[1..]| && gs[1..][j].router == Some(r);
          assert gs[j + 1].router == Some(r);
        }
      }
    }
  }

  /**
   * After a successful poll every session of the group holds the fold of the records its own
   * router reported, and every other session is untouched.
   */
  lemma GroupPollPerSession(
    group: BgpGroup, sessions: seq<DirectSession>, fetch: RouterId -> NeighborsDetail,
    parse: string -> Option<Ip>, now: Time)
    requires GroupPoll(group, sessions, fetch, parse, now).result == Ok(true)
    ensures var out := GroupPoll(group, sessions, fetch, parse, now);
      && out.group == group.(statesUpdate := Some(now))
      && |out.sessions| == |sessions|
      && forall i :: 0 <= i < |sessions| ==>
        out.sessions[i] == if sessions[i].group == Some(group.id)
                           then sessions[i].(state := StateFold(sessions[i].state, sessions[i].ip, Flatten(fetch(sessions[i].router.value)), parse, now))
                           else sessions[i]
  {
    var gs := GroupSessions(sessions, group.id);
    var order := RoutersOf(gs, []).value;
    RoutersOfSound(gs, [], order);
    var polled := GroupPoll(group, sessions, fetch, parse, now).sessions;
    ApplyRoutersPerSession(sessions, group.id, order, fetch, parse, now, polled);
    forall i | 0 <= i < |sessions| && sessions[i].group == Some(group.id)
      ensures sessions[i].router.Some? && sessions[i].router.value in order
    {
      assert sessions[i] in gs;
      var j :| 0 <= j < |gs| && gs[j] == sessions[i];
    }
  }

  // ---- The per-session fold --------------------------------------------------------------

  /** A session that no record names keeps its state. */
  lemma {:induction false} StateFoldUnnamed(st: SessionState, ip: Ip, records: seq<NeighborDetail>, parse: string -> Option<Ip>, now: Time)
    requires forall k :: 0 <= k < |records| ==> parse(records[k].remoteAddress) != Some(ip)
    ensures StateFold(st, ip, records, parse, now) == st
    decreases |records|
  {
    if records != [] {
      assert forall k :: 0 <= k < |records[1..]| ==> records[1..][k] == records[k + 1];
      StateFoldUnnamed(st, ip, records[1..], parse, now);
    }
  }

  /**
   * A session that some record names ends with the state and counters of the last such
   * record, and is stamped exactly when one of those records reports it established.
   */
  lemma {:induction false} StateFoldLastRecord(
    st: SessionState, ip: Ip, records: seq<NeighborDetail>, parse: string -> Option<Ip>, now: Time, last: nat)
    requires last < |records| && parse(records[last].remoteAddress) == Some(ip)
    requires forall k :: last < k < |records| ==> parse(records[k].remoteAddress) != Some(ip)
    ensures var r := StateFold(st, ip, records, parse, now);
      && r.bgpState == Some(Lower(records[last].connectionState))
      && r.received == ClampCount(records[last].receivedPrefixCount)
      && r.advertised == ClampCount(records[last].advertisedPrefixCount)
      && r.lastEstablished == if exists k :: 0 <= k < |records| && parse(records[k].remoteAddress) == Some(ip)
                                                && Lower(records[k].connectionState) == ESTABLISHED
                              then Some(now) else st.lastEstablished
    decreases |records|
  {
    var next := if parse(records[0].remoteAddress) == Some(ip) then Refresh(st, records[0], now) else st;
    assert forall k :: 0 <= k < |records[1..]| ==> records[1..][k] == records[k + 1];
    if last == 0 {
      StateFoldUnnamed(next, ip, records[1..], parse, now);
      forall k | 0 < k < |records| ensures parse(records[k].remoteAddress) != Some(ip) { }
    } else {
      StateFoldLastRecord(next, ip, records[1..], parse, now, last - 1);
      if exists k :: 0 <= k < |records[1..]| && parse(records[1..][k].remoteAddress) == Some(ip)
                     && Lower(records[1..][k].connectionState) == ESTABLISHED {
        var k :| 0 <= k < |records[1..]| && parse(records[1..][k].remoteAddress) == Some(ip)
                     && Lower(records[1..][k].connectionState) == ESTABLISHED;
        assert records[k + 1] == records[1..][k];
      } else {
        forall k | 1 <= k < |records|
          ensures !(parse(records[k].remoteAddress) == Some(ip) && Lower(records[k].connectionState) == ESTABLISHED)
        {
          assert records[k] == records[1..][k - 1];
        }
      }
    }
  }

  /**
   * Two sessions of the group on the same router with the same address make the poll fail
   * once that router reports the address.
   */
  lemma {:induction false} DuplicateTargetsFail(
    sessions: seq<DirectSession>, gid: GroupId, rid: RouterId, records: seq<NeighborDetail>,
    parse: string -> Option<Ip>, now: Time, a: nat, b: nat, k: nat)
    requires a < b < |sessions| && sessions[a].ip == sessions[b].ip
    requires Targets(sessions[a], gid, rid, sessions[a].ip) && Targets(sessions[b], gid, rid, sessions[b].ip)
    requires k < |records| && parse(records[k].remoteAddress) == Some(sessions[a].ip)
    ensures ApplyRecords(sessions, gid, rid, records, parse, now).Err?
    decreases |records|
  {
    var step := ApplyRecord(sessions, gid, rid, records[0], parse, now);
    if k == 0 {
      var ip := parse(records[0].remoteAddress).value;
      assert Targets(sessions[a], gid, rid, ip) && Targets(sessions[b], gid, rid, ip);
      assert step == Err(MultipleObjectsReturned);
    } else if step.Ok? {
      var next := step.value;
      assert next[a].ip == sessions[a].ip && next[b].ip == sessions[b].ip;
      assert Targets(next[a], gid, rid, next[a].ip) && Targets(next[b], gid, rid, next[b].ip);
      assert records[1..][k - 1] == records[k];
      DuplicateTargetsFail(next, gid, rid, records[1..], parse, now, a, b, k - 1);
    }
  }
}
