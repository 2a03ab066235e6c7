/**
 * `DirectPeeringSession.poll` and `InternetExchangePeeringSession.poll`: one session asks its
 * router for the detail of its own address and, when the router reports it, refreshes itself.
 */
module SessionPolls {
  import opened Wrappers
  import opened Net
  import opened Records
  import opened NeighborDetails
  import opened SessionUpdates
  import BgpGroups

  /** What a poll returned, and the session as saved. */
  datatype Polled<T> = Polled(updated: bool, session: T)

  /** `not router or not router.platform`: no router to ask. */
  predicate Unusable(router: Option<Router>) {
    router.None? || router.value.platform.None?
  }

  /** The router's answer for one address, and the state it leads to. */
  function Probe(
    router: Router, ip: Ip, state: SessionState, fetch: RouterId -> NeighborsDetail,
    parse: string -> Option<Ip>, now: Time): (r: Result<Option<SessionState>>)
    ensures r.Ok? && r.value.Some? ==>
      exists d :: d in Flatten(fetch(router.id)) && parse(d.remoteAddress) == Some(ip) && r.value.value == Refresh(state, d, now)
    ensures r == Ok(None) <==>
      (fetch(router.id).NoData? ||
       forall k :: 0 <= k < |Flatten(fetch(router.id))| ==> ParsesElsewhere(Flatten(fetch(router.id))[k], ip, parse))
    ensures forall k :: FirstNaming(Flatten(fetch(router.id)), ip, parse, k) ==>
      r == Ok(Some(Refresh(state, Flatten(fetch(router.id))[k], now)))
    ensures forall k :: MalformedFirst(Flatten(fetch(router.id)), ip, parse, k) ==> r == Err(InvalidAddress)
    ensures r.Err? ==> r.error == InvalidAddress
  {
    match FindNeighborDetail(fetch(router.id), ip, parse)
    case Err(e) => Err(e)
    case Ok(None) => Ok(None)
    case Ok(Some(d)) => Ok(Some(Refresh(state, d, now)))
  }

  /** The single-session poll asks the router: it has a platform and the group, if any, checks states. */
  predicate DirectAsks(router: Option<Router>, group: Option<BgpGroup>) {
    !Unusable(router) && (group.None? || group.value.checkStates)
  }

  /**
   * `DirectPeeringSession.poll`. `router` and `group` are the session's resolved foreign
   * keys. Nothing is asked when there is no usable router or the group does not check states.
   */
  function PollDirect(
    session: DirectSession, router: Option<Router>, group: Option<BgpGroup>,
    fetch: RouterId -> NeighborsDetail, parse: string -> Option<Ip>, now: Time): (r: Result<Polled<DirectSession>>)
    requires router.Some? <==> session.router.Some?
    requires router.Some? ==> router.value.id == session.router.value
    requires group.Some? <==> session.group.Some?
    requires group.Some? ==> group.value.id == session.group.value
    ensures !DirectAsks(router, group) ==> r == Ok(Polled(false, session))
    ensures r.Ok? && !r.value.updated ==> r.value.session == session
    ensures r.Ok? && r.value.updated ==>
      && !Unusable(router) && (group.None? || group.value.checkStates)
      && exists d :: d in Flatten(fetch(router.value.id)) && parse(d.remoteAddress) == Some(session.ip)
           && r.value.session == session.(state := Refresh(session.state, d, now))
    ensures DirectAsks(router, group) ==> forall k :: FirstNaming(Flatten(fetch(router.value.id)), session.ip, parse, k) ==>
      r == Ok(Polled(true, session.(state := Refresh(session.state, Flatten(fetch(router.value.id))[k], now))))
    ensures DirectAsks(router, group) ==> forall k :: MalformedFirst(Flatten(fetch(router.value.id)), session.ip, parse, k) ==>
      r == Err(InvalidAddress)
    ensures DirectAsks(router, group) ==> (r == Ok(Polled(false, session)) <==>
      forall k :: 0 <= k < |Flatten(fetch(router.value.id))| ==> ParsesElsewhere(Flatten(fetch(router.value.id))[k], session.ip, parse))
    ensures r.Err? ==> r.error == InvalidAddress
  {
    if Unusable(router) then Ok(Polled(false, session))
    else if group.Some? && !group.value.checkStates then Ok(Polled(false, session))
    else match Probe(router.value, session.ip, session.state, fetch, parse, now)
      case Err(e) => Err(e)
      case Ok(None) => Ok(Polled(false, session))
      case Ok(Some(st)) => Ok(Polled(true, session.(state := st)))
  }

  /**
   * `InternetExchangePeeringSession.poll`. `connection` and `router` are the resolved
   * foreign keys; a session without a connection reads `router` off `None`.
   */
  function PollIxp(
    session: IxpSession, connection: Option<Connection>, router: Option<Router>,
    fetch: RouterId -> NeighborsDetail, parse: string -> Option<Ip>, now: Time): (r: Result<Polled<IxpSession>>)
    requires connection.Some? <==> session.connection.Some?
    requires connection.Some? ==> connection.value.id == session.connection.value
    requires connection.Some? ==> (router.Some? <==> connection.value.router.Some?)
    requires router.Some? ==> connection.Some? && router.value.id == connection.value.router.value
    ensures connection.None? ==> r == Err(AttributeError)
    ensures connection.Some? && Unusable(router) ==> r == Ok(Polled(false, session))
    ensures r.Ok? && !r.value.updated ==> r.value.session == session
    ensures r.Ok? && r.value.updated ==>
      && router.Some?
      && exists d :: d in Flatten(fetch(router.value.id)) && parse(d.remoteAddress) == Some(session.ip)
           && r.value.session == session.(state := Refresh(session.state, d, now))
    ensures connection.Some? && !Unusable(router) ==>
      forall k :: FirstNaming(Flatten(fetch(router.value.id)), session.ip, parse, k) ==>
        r == Ok(Polled(true, session.(state := Refresh(session.state, Flatten(fetch(router.value.id))[k], now))))
    ensures connection.Some? && !Unusable(router) ==>
      forall k :: MalformedFirst(Flatten(fetch(router.value.id)), session.ip, parse, k) ==> r == Err(InvalidAddress)
    ensures connection.Some? && !Unusable(router) ==> (r == Ok(Polled(false, session)) <==>
      forall k :: 0 <= k < |Flatten(fetch(router.value.id))| ==> ParsesElsewhere(Flatten(fetch(router.value.id))[k], session.ip, parse))
    ensures r.Err? ==> r.error in {AttributeError, InvalidAddress}
  {
    if connection.None? then Err(AttributeError)
    else if Unusable(router) then Ok(Polled(false, session))
    else match Probe(router.value, session.ip, session.state, fetch, parse, now)
      case Err(e) => Err(e)
      case Ok(None) => Ok(Polled(false, session))
      case Ok(Some(st)) => Ok(Polled(true, session.(state := st)))
  }

  /**
   * The single-session poll and the group poll agree: when the router names the session's
   * address in exactly one record, and every other record parses, both store the same state.
   */
  lemma PollDirectAgreesWithGroupPoll(
    session: DirectSession, router: Router, group: BgpGroup,
    fetch: RouterId -> NeighborsDetail, parse: string -> Option<Ip>, now: Time, k: nat)
    requires router.platform.Some? && group.checkStates
    requires session.router == Some(router.id) && session.group == Some(group.id)
    requires k < |Flatten(fetch(router.id))| && parse(Flatten(fetch(router.id))[k].remoteAddress) == Some(session.ip)
    requires forall j :: 0 <= j < |Flatten(fetch(router.id))| && j != k ==>
      ParsesElsewhere(Flatten(fetch(router.id))[j], session.ip, parse)
    ensures PollDirect(session, Some(router), Some(group), fetch, parse, now)
      == Ok(Polled(true, session.(state := BgpGroups.StateFold(session.state, session.ip, Flatten(fetch(router.id)), parse, now))))
  {
    var records := Flatten(fetch(router.id));
    FindReturnsFirst(records, session.ip, parse, k);
    BgpGroups.StateFoldLastRecord(session.state, session.ip, records, parse, now, k);
    var folded := BgpGroups.StateFold(session.state, session.ip, records, parse, now);
    var refreshed := Refresh(session.state, records[k], now);
    if Lower(records[k].connectionState) == ESTABLISHED {
      assert folded.lastEstablished == Some(now);
    } else {
      forall j | 0 <= j < |records|
        ensures !(parse(records[j].remoteAddress) == Some(session.ip) && Lower(records[j].connectionState) == ESTABLISHED)
      {
        if j != k {
          assert ParsesElsewhere(records[j], session.ip, parse);
        }
      }
    }
    assert folded == refreshed;
  }

  /** Polling a session again, with the same answer from the router at the same time, changes nothing more. */
  lemma PollDirectIdempotent(
    session: DirectSession, router: Option<Router>, group: Option<BgpGroup>,
    fetch: RouterId -> NeighborsDetail, parse: string -> Option<Ip>, now: Time)
    requires router.Some? <==> session.router.Some?
    requires router.Some? ==> router.value.id == session.router.value
    requires group.Some? <==> session.group.Some?
    requires group.Some? ==> group.value.id == session.group.value
    requires PollDirect(session, router, group, fetch, parse, now).Ok?
    ensures var once := PollDirect(session, router, group, fetch, parse, now).value;
      PollDirect(once.session, router, group, fetch, parse, now) == Ok(Polled(once.updated, once.session))
  {
    var once := PollDirect(session, router, group, fetch, parse, now).value;
    if once.updated {
      var found := FindNeighborDetail(fetch(router.value.id), session.ip, parse);
      RefreshIdempotent(session.state, found.value.value, now);
    }
  }

  /** The same for an exchange session. */
  lemma PollIxpIdempotent(
    session: IxpSession, connection: Option<Connection>, router: Option<Router>,
    fetch: RouterId -> NeighborsDetail, parse: string -> Option<Ip>, now: Time)
    requires connection.Some? <==> session.connection.Some?
    requires connection.Some? ==> connection.value.id == session.connection.value
    requires connection.Some? ==> (router.Some? <==> connection.value.router.Some?)
    requires router.Some? ==> connection.Some? && router.value.id == connection.value.router.value
    requires PollIxp(session, connection, router, fetch, parse, now).Ok?
    ensures var once := PollIxp(session, connection, router, fetch, parse, now).value;
      PollIxp(once.session, connection, router, fetch, parse, now) == Ok(Polled(once.updated, once.session))
  {
    var once := PollIxp(session, connection, router, fetch, parse, now).value;
    if once.updated {
      var found := FindNeighborDetail(fetch(router.value.id), session.ip, parse);
      RefreshIdempotent(session.state, found.value.value, now);
    }
  }
}
