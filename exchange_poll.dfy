/**
 * `InternetExchange.poll_peering_sessions`: every router connected to the exchange is asked for
 * its BGP neighbours; each reported address that names an exchange session refreshes it. The
 * whole poll is one transaction: an exception undoes it, but the early `return False` taken
 * when a router gives no data commits what the routers before it did.
 */
module ExchangePolls {
  import opened Wrappers
  import opened Net
  import opened Records
  import opened NeighborDetails
  import opened SessionUpdates
  import opened Queries

  /** The exchange sessions and the exchange's own record while the poll runs. */
  datatype Progress = Progress(sessions: seq<IxpSession>, ix: InternetExchange)

  datatype ExchangePollOutcome = ExchangePollOutcome(result: Result<bool>, sessions: seq<IxpSession>, ix: InternetExchange)

  /** A connection of the exchange attaches this router. */
  predicate Attached(connections: seq<Connection>, ixId: ExchangeId, rid: RouterId) {
    exists c :: c in connections && c.exchange == ixId && c.router == Some(rid)
  }

  /** `InternetExchange.get_routers`: the router table, in its own order, kept to attached routers. */
  function ConnectedRouters(routers: seq<Router>, connections: seq<Connection>, ixId: ExchangeId): (r: seq<Router>)
    ensures forall x :: x in r <==> x in routers && Attached(connections, ixId, x.id)
    ensures |r| <= |routers|
  {
    if routers == [] then []
    else
      var rest := ConnectedRouters(routers[1..], connections, ixId);
      assert forall x :: x in routers <==> x == routers[0] || x in routers[1..];
      (if Attached(connections, ixId, routers[0].id) then [routers[0]] else []) + rest
  }

  /**
   * One reported record: a malformed address raises; the address is looked up among all
   * exchange sessions, whatever their exchange; one match is refreshed, two raise.
   */
  function ApplyIxRecord(sessions: seq<IxpSession>, d: NeighborDetail, parse: string -> Option<Ip>, now: Time): (r: Result<seq<IxpSession>>)
    ensures r == Err(InvalidAddress) <==> parse(d.remoteAddress).None?
    ensures r.Err? ==> r.error in {InvalidAddress, MultipleObjectsReturned}
    ensures parse(d.remoteAddress).Some? ==>
      (r == Err(MultipleObjectsReturned) <==>
        exists j, k :: 0 <= j < k < |sessions| && sessions[j].ip == sessions[k].ip == parse(d.remoteAddress).value)
    ensures r.Ok? ==> |r.value| == |sessions|
    ensures r.Ok? ==> forall i :: 0 <= i < |sessions| ==>
      r.value[i] == if Some(sessions[i].ip) == parse(d.remoteAddress)
                    then sessions[i].(state := IxpRefresh(sessions[i].state, d, now))
                    else sessions[i]
  {
    match parse(d.remoteAddress)
    case None => Err(InvalidAddress)
    case Some(ip) =>
      match Get(sessions, (s: IxpSession) => s.ip == ip)
      case NotFound => Ok(sessions)
      case Multiple => Err(MultipleObjectsReturned)
      case Found(i) => Ok(sessions[i := sessions[i].(state := IxpRefresh(sessions[i].state, d, now))])
  }

  /** Records in order; the first error ends the poll. */
  function ApplyIxRecords(sessions: seq<IxpSession>, records: seq<NeighborDetail>, parse: string -> Option<Ip>, now: Time): Result<seq<IxpSession>>
    decreases |records|
  {
    if records == [] then Ok(sessions)
    else match ApplyIxRecord(sessions, records[0], parse, now)
      case Err(e) => Err(e)
      case Ok(next) => ApplyIxRecords(next, records[1..], parse, now)
  }

  /** Continues with more records once some are applied. */
  function ThenRecords(step: Result<seq<IxpSession>>, records: seq<NeighborDetail>, parse: string -> Option<Ip>, now: Time): Result<seq<IxpSession>> {
    match step
    case Err(e) => Err(e)
    case Ok(next) => ApplyIxRecords(next, records, parse, now)
  }

  /** One router's VRFs: the records of each VRF, then the exchange's stamp. */
  function RunVrfs(p: Progress, vrfs: seq<VrfDetail>, parse: string -> Option<Ip>, now: Time): Result<Progress>
    decreases |vrfs|
  {
    if vrfs == [] then Ok(p)
    else match ApplyIxRecords(p.sessions, FlattenAsns(vrfs[0].asns), parse, now)
      case Err(e) => Err(e)
      case Ok(next) => RunVrfs(Progress(next, p.ix.(statesUpdate := Some(now))), vrfs[1..], parse, now)
  }

  /** The routers in order; a router without data stops the poll, which then answers false. */
  function RunRouters(p: Progress, routers: seq<Router>, fetch: RouterId -> NeighborsDetail, parse: string -> Option<Ip>, now: Time): Result<(bool, Progress)>
    decreases |routers|
  {
    if routers == [] then Ok((true, p))
    else
      var detail := fetch(routers[0].id);
      if IsEmpty(detail) then Ok((false, p))
      else match RunVrfs(p, detail.vrfs, parse, now)
        case Err(e) => Err(e)
        case Ok(next) => RunRouters(next, routers[1..], fetch, parse, now)
  }

  /** The whole poll. The guard on a negative router count never holds. */
  function ExchangePoll(
    ix: InternetExchange, connections: seq<Connection>, routers: seq<Router>, sessions: seq<IxpSession>,
    fetch: RouterId -> NeighborsDetail, parse: string -> Option<Ip>, now: Time): ExchangePollOutcome
  {
    var connected := ConnectedRouters(routers, connections, ix.id);
    if |connected| < 0 || !ix.checkStates then ExchangePollOutcome(Ok(false), sessions, ix)
    else match RunRouters(Progress(sessions, ix), connected, fetch, parse, now)
      case Err(e) => ExchangePollOutcome(Err(e), sessions, ix)
      case Ok((answer, p)) => ExchangePollOutcome(Ok(answer), p.sessions, p.ix)
  }

  /** Applying two runs of records one after the other is applying their concatenation. */
  lemma {:induction false} ApplyIxRecordsAppend(sessions: seq<IxpSession>, xs: seq<NeighborDetail>, ys: seq<NeighborDetail>, parse: string -> Option<Ip>, now: Time)
    ensures ApplyIxRecords(sessions, xs + ys, parse, now) == ThenRecords(ApplyIxRecords(sessions, xs, parse, now), ys, parse, now)
    decreases |xs|
  {
    if xs == [] {
      assert xs + ys == ys;
    } else {
      assert (xs + ys)[0] == xs[0] && (xs + ys)[1..] == xs[1..] + ys;
      match ApplyIxRecord(sessions, xs[0], parse, now) {
        case Err(_) =>
        case Ok(next) => ApplyIxRecordsAppend(next, xs[1..], ys, parse, now);
      }
    }
  }

  /** The records of one VRF, ASN after ASN. */
  method PollAsns(sessions: seq<IxpSession>, asns: seq<AsnNeighbors>, parse: string -> Option<Ip>, now: Time)
    returns (r: Result<seq<IxpSession>>)
    ensures r == ApplyIxRecords(sessions, FlattenAsns(asns), parse, now)
  {
    var current := sessions;
    var a := 0;
    while a < |asns|
      invariant 0 <= a <= |asns|
      invariant ApplyIxRecords(sessions, FlattenAsns(asns), parse, now) == ApplyIxRecords(current, FlattenAsns(asns[a..]), parse, now)
    {
      assert asns[a..][1..] == asns[a + 1..];
      var neighbors := asns[a].neighbors;
      ApplyIxRecordsAppend(current, neighbors, FlattenAsns(asns[a + 1..]), parse, now);
      var n := 0;
      while n < |neighbors|
        invariant 0 <= n <= |neighbors|
        invariant ApplyIxRecords(sessions, FlattenAsns(asns), parse, now)
          == ThenRecords(ApplyIxRecords(current, neighbors[n..], parse, now), FlattenAsns(asns[a + 1..]), parse, now)
      {
        assert neighbors[n..][1..] == neighbors[n + 1..];
        var step := ApplyIxRecord(current, neighbors[n], parse, now);
        match step {
          case Err(e) =>
            return Err(e);
          case Ok(next) =>
            current := next;
        }
        n := n + 1;
      }
      assert neighbors[|neighbors|..] == [];
      a := a + 1;
    }
    assert asns[|asns|..] == [];
    r := Ok(current);
  }

  /** One router's answer, VRF by VRF; the exchange is stamped after each VRF. */
  method PollVrfs(p: Progress, vrfs: seq<VrfDetail>, parse: string -> Option<Ip>, now: Time) returns (r: Result<Progress>)
    ensures r == RunVrfs(p, vrfs, parse, now)
  {
    var current := p;
    var v := 0;
    while v < |vrfs|
      invariant 0 <= v <= |vrfs|
      invariant RunVrfs(p, vrfs, parse, now) == RunVrfs(current, vrfs[v..], parse, now)
    {
      assert vrfs[v..][1..] == vrfs[v + 1..];
      var step := PollAsns(current.sessions, vrfs[v].asns, parse, now);
      match step {
        case Err(e) =>
          return Err(e);
        case Ok(next) =>
          current := Progress(next, current.ix.(statesUpdate := Some(now)));
      }
      v := v + 1;
    }
    assert vrfs[|vrfs|..] == [];
    r := Ok(current);
  }

  /** `InternetExchange.poll_peering_sessions`. */
  method PollPeeringSessions(
    ix: InternetExchange, connections: seq<Connection>, routers: seq<Router>, sessions: seq<IxpSession>,
    fetch: RouterId -> NeighborsDetail, parse: string -> Option<Ip>, now: Time)
    returns (result: Result<bool>, updated: seq<IxpSession>, updatedIx: InternetExchange)
    ensures ExchangePollOutcome(result, updated, updatedIx) == ExchangePoll(ix, connections, routers, sessions, fetch, parse, now)
  {
    var connected := ConnectedRouters(routers, connections, ix.id);
    if |connected| < 0 || !ix.checkStates {
      return Ok(false), sessions, ix;
    }
    var current := Progress(sessions, ix);
    var i := 0;
    while i < |connected|
      invariant 0 <= i <= |connected|
      invariant RunRouters(Progress(sessions, ix), connected, fetch, parse, now) == RunRouters(current, connected[i..], fetch, parse, now)
    {
      assert connected[i..][1..] == connected[i + 1..];
      var detail := fetch(connected[i].id);
      if IsEmpty(detail) {
        return Ok(false), current.sessions, current.ix;
      }
      var step := PollVrfs(current, detail.vrfs, parse, now);
      match step {
        case Err(e) =>
          return Err(e), sessions, ix;
        case Ok(next) =>
          current := next;
      }
      i := i + 1;
    }
    assert connected[|connected|..] == [];
    result, updated, updatedIx := Ok(true), current.sessions, current.ix;
  }

  // ---- What the poll does to each session ------------------------------------------------

  /** The reference definition, one session at a time: each record naming its address refreshes it. */
  function IxStateFold(st: SessionState, ip: Ip, records: seq<NeighborDetail>, parse: string -> Option<Ip>, now: Time): SessionState
    decreases |records|
  {
    if records == [] then st
    else
      var next := if parse(records[0].remoteAddress) == Some(ip) then IxpRefresh(st, records[0], now) else st;
      IxStateFold(next, ip, records[1..], parse, now)
  }

  lemma {:induction false} IxStateFoldAppend(st: SessionState, ip: Ip, xs: seq<NeighborDetail>, ys: seq<NeighborDetail>, parse: string -> Option<Ip>, now: Time)
    ensures IxStateFold(st, ip, xs + ys, parse, now) == IxStateFold(IxStateFold(st, ip, xs, parse, now), ip, ys, parse, now)
    decreases |xs|
  {
    if xs == [] {
      assert xs + ys == ys;
    } else {
      assert (xs + ys)[0] == xs[0] && (xs + ys)[1..] == xs[1..] + ys;
      var next := if parse(xs[0].remoteAddress) == Some(ip) then IxpRefresh(st, xs[0], now) else st;
      IxStateFoldAppend(next, ip, xs[1..], ys, parse, now);
    }
  }

  /** Records applied to the whole table give every session, of any exchange, its own fold. */
  lemma {:induction false} ApplyIxRecordsPerSession(
    sessions: seq<IxpSession>, records: seq<NeighborDetail>, parse: string -> Option<Ip>, now: Time, polled: seq<IxpSession>)
    requires ApplyIxRecords(sessions, records, parse, now) == Ok(polled)
    ensures |polled| == |sessions|
    ensures forall i :: 0 <= i < |sessions| ==>
      polled[i] == sessions[i].(state := IxStateFold(sessions[i].state, sessions[i].ip, records, parse, now))
    decreases |records|
  {
    if records != [] {
      var next := ApplyIxRecord(sessions, records[0], parse, now).value;
      ApplyIxRecordsPerSession(next, records[1..], parse, now, polled);
    }
  }

  /** The records a run of routers gets through: all of them, up to the first router without data. */
  function Processed(routers: seq<Router>, fetch: RouterId -> NeighborsDetail): seq<NeighborDetail>
    decreases |routers|
  {
    if routers == [] || IsEmpty(fetch(routers[0].id)) then []
    else Flatten(fetch(routers[0].id)) + Processed(routers[1..], fetch)
  }

  lemma {:induction false} RunVrfsPerSession(p: Progress, vrfs: seq<VrfDetail>, parse: string -> Option<Ip>, now: Time, q: Progress)
    requires RunVrfs(p, vrfs, parse, now) == Ok(q)
    ensures |q.sessions| == |p.sessions|
    ensures forall i :: 0 <= i < |p.sessions| ==>
      q.sessions[i] == p.sessions[i].(state := IxStateFold(p.sessions[i].state, p.sessions[i].ip, FlattenVrfs(vrfs), parse, now))
    ensures q.ix == if vrfs == [] then p.ix else p.ix.(statesUpdate := Some(now))
    decreases |vrfs|
  {
    if vrfs != [] {
      var records := FlattenAsns(vrfs[0].asns);
      var next := ApplyIxRecords(p.sessions, records, parse, now).value;
      ApplyIxRecordsPerSession(p.sessions, records, parse, now, next);
      RunVrfsPerSession(Progress(next, p.ix.(statesUpdate := Some(now))), vrfs[1..], parse, now, q);
      forall i | 0 <= i < |p.sessions|
        ensures q.sessions[i] == p.sessions[i].(state := IxStateFold(p.sessions[i].state, p.sessions[i].ip, FlattenVrfs(vrfs), parse, now))
      {
        IxStateFoldAppend(p.sessions[i].state, p.sessions[i].ip, records, FlattenVrfs(vrfs[1..]), parse, now);
      }
    }
  }

  lemma {:induction false} RunRoutersPerSession(
    p: Progress, routers: seq<Router>, fetch: RouterId -> NeighborsDetail, parse: string -> Option<Ip>, now: Time,
    answer: bool, q: Progress)
    requires RunRouters(p, routers, fetch, parse, now) == Ok((answer, q))
    ensures |q.sessions| == |p.sessions|
    ensures forall i :: 0 <= i < |p.sessions| ==>
      q.sessions[i] == p.sessions[i].(state := IxStateFold(p.sessions[i].state, p.sessions[i].ip, Processed(routers, fetch), parse, now))
    ensures answer <==> forall k :: 0 <= k < |routers| ==> !IsEmpty(fetch(routers[k].id))
    ensures q.ix == p.ix || q.ix == p.ix.(statesUpdate := Some(now))
    ensures routers != [] && answer ==> q.ix == p.ix.(statesUpdate := Some(now))
    decreases |routers|
  {
    if routers != [] && !IsEmpty(fetch(routers[0].id)) {
      var detail := fetch(routers[0].id);
      var next := RunVrfs(p, detail.vrfs, parse, now).value;
      RunVrfsPerSession(p, detail.vrfs, parse, now, next);
      RunRoutersPerSession(next, routers[1..], fetch, parse, now, answer, q);
      forall i | 0 <= i < |p.sessions|
        ensures q.sessions[i] == p.sessions[i].(state := IxStateFold(p.sessions[i].state, p.sessions[i].ip, Processed(routers, fetch), parse, now))
      {
        IxStateFoldAppend(p.sessions[i].state, p.sessions[i].ip, Flatten(detail), Processed(routers[1..], fetch), parse, now);
      }
      assert forall k :: 1 <= k < |routers| ==> routers[k] == routers[1..][k - 1];
      if answer {
        forall k | 0 <= k < |routers| ensures !IsEmpty(fetch(routers[k].id)) {
          if k > 0 {
            assert routers[k] == routers[1..][k - 1];
          }
        }
      }
    } else if routers != [] {
      forall i | 0 <= i < |p.sessions|
        ensures IxStateFold(p.sessions[i].state, p.sessions[i].ip, [], parse, now) == p.sessions[i].state
      {
      }
    }
  }

  /**
   * After a poll that raised nothing, every exchange session, on this exchange or another,
   * holds the fold of the records the routers reported before the first router without data;
   * the answer is true exactly when every connected router gave data.
   */
  lemma ExchangePollPerSession(
    ix: InternetExchange, connections: seq<Connection>, routers: seq<Router>, sessions: seq<IxpSession>,
    fetch: RouterId -> NeighborsDetail, parse: string -> Option<Ip>, now: Time)
    requires ix.checkStates
    requires ExchangePoll(ix, connections, routers, sessions, fetch, parse, now).result.Ok?
    ensures var out := ExchangePoll(ix, connections, routers, sessions, fetch, parse, now);
      var connected := ConnectedRouters(routers, connections, ix.id);
      && |out.sessions| == |sessions|
      && (forall i :: 0 <= i < |sessions| ==>
            out.sessions[i] == sessions[i].(state := IxStateFold(sessions[i].state, sessions[i].ip, Processed(connected, fetch), parse, now)))
      && (out.result == Ok(true) <==> forall k :: 0 <= k < |connected| ==> !IsEmpty(fetch(connected[k].id)))
      && (out.ix == ix || out.ix == ix.(statesUpdate := Some(now)))
  {
    var connected := ConnectedRouters(routers, connections, ix.id);
    var run := RunRouters(Progress(sessions, ix), connected, fetch, parse, now).value;
    RunRoutersPerSession(Progress(sessions, ix), connected, fetch, parse, now, run.0, run.1);
    assert ExchangePoll(ix, connections, routers, sessions, fetch, parse, now)
      == ExchangePollOutcome(Ok(run.0), run.1.sessions, run.1.ix);
    assert run.0 <==> forall k :: 0 <= k < |connected| ==> !IsEmpty(fetch(connected[k].id));
  }

  /** A session whose address no processed record names is left as it was. */
  lemma {:induction false} IxStateFoldUnnamed(st: SessionState, ip: Ip, records: seq<NeighborDetail>, parse: string -> Option<Ip>, now: Time)
    requires forall k :: 0 <= k < |records| ==> parse(records[k].remoteAddress) != Some(ip)
    ensures IxStateFold(st, ip, records, parse, now) == st
    decreases |records|
  {
    if records != [] {
      assert forall k :: 0 <= k < |records[1..]| ==> records[1..][k] == records[k + 1];
      IxStateFoldUnnamed(st, ip, records[1..], parse, now);
    }
  }

  /**
   * The early `return False` commits: when the first routers succeed and the next one gives
   * no data, the poll answers false and keeps what the first routers wrote.
   */
  lemma {:induction false} EmptyRouterKeepsEarlierUpdates(
    p: Progress, routers: seq<Router>, fetch: RouterId -> NeighborsDetail, parse: string -> Option<Ip>, now: Time,
    k: nat, q: Progress)
    requires k < |routers| && IsEmpty(fetch(routers[k].id))
    requires RunRouters(p, routers[..k], fetch, parse, now) == Ok((true, q))
    ensures RunRouters(p, routers, fetch, parse, now) == Ok((false, q))
    decreases k
  {
    if k > 0 {
      assert routers[..k][0] == routers[0] && routers[..k][1..] == routers[1..][..k - 1];
      var next := RunVrfs(p, fetch(routers[0].id).vrfs, parse, now).value;
      EmptyRouterKeepsEarlierUpdates(next, routers[1..], fetch, parse, now, k - 1, q);
    }
  }

  /**
   * Because the router-count guard never holds, an exchange with no connected router reports
   * a successful poll and changes nothing.
   */
  lemma NoConnectedRouterReportsSuccess(
    ix: InternetExchange, connections: seq<Connection>, routers: seq<Router>, sessions: seq<IxpSession>,
    fetch: RouterId -> NeighborsDetail, parse: string -> Option<Ip>, now: Time)
    requires ix.checkStates
    requires forall r :: r in routers ==> !Attached(connections, ix.id, r.id)
    ensures ExchangePoll(ix, connections, routers, sessions, fetch, parse, now) == ExchangePollOutcome(Ok(true), sessions, ix)
  {
    var connected := ConnectedRouters(routers, connections, ix.id);
    assert forall i :: 0 <= i < |connected| ==> connected[i] in connected;
  }
}
