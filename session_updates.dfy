/**
 * The rule every poll applies to one stored session once a live detail record is matched to
 * it: state, the two prefix counters and the last-established stamp.
 */
module SessionUpdates {
  import opened Wrappers
  import opened Net
  import opened Records
  import opened NeighborDetails

  /** `count if count > 0 else 0`, as the group poll and both single-session polls write it. */
  function ClampCount(count: int): (r: int)
    ensures r >= 0
    ensures count >= 0 ==> r == count
    ensures count < 0 ==> r == 0
  {
    if count > 0 then count else 0
  }

  /** `count or 0` on an integer, as the exchange poll writes it: the count itself, negative or not. */
  function OrZero(count: int): (r: int)
    ensures r == count
  {
    if count == 0 then 0 else count
  }

  /** Only ASCII letters change case, so the reported state is stored in lower case. */
  predicate IsLowerCase(s: string) {
    forall i :: 0 <= i < |s| ==> !('A' <= s[i] <= 'Z')
  }

  /**
   * The update of the group poll and of the single-session polls: the lower-cased state,
   * counters clamped at zero, and a new stamp whenever the reported state is "established".
   */
  function Refresh(state: SessionState, detail: NeighborDetail, now: Time): (r: SessionState)
    ensures r.bgpState == Some(Lower(detail.connectionState)) && IsLowerCase(r.bgpState.value)
    ensures r.received >= 0 && r.advertised >= 0
    ensures detail.receivedPrefixCount >= 0 ==> r.received == detail.receivedPrefixCount
    ensures detail.receivedPrefixCount < 0 ==> r.received == 0
    ensures detail.advertisedPrefixCount >= 0 ==> r.advertised == detail.advertisedPrefixCount
    ensures detail.advertisedPrefixCount < 0 ==> r.advertised == 0
    ensures r.bgpState == Some(ESTABLISHED) ==> r.lastEstablished == Some(now)
    ensures r.bgpState != Some(ESTABLISHED) ==> r.lastEstablished == state.lastEstablished
  {
    var bgpState := Lower(detail.connectionState);
    SessionState(
      Some(bgpState),
      ClampCount(detail.receivedPrefixCount),
      ClampCount(detail.advertisedPrefixCount),
      if bgpState == ESTABLISHED then Some(now) else state.lastEstablished)
  }

  /** The update of the exchange poll: as `Refresh`, but the counters go through `or 0`. */
  function IxpRefresh(state: SessionState, detail: NeighborDetail, now: Time): (r: SessionState)
    ensures r.bgpState == Some(Lower(detail.connectionState)) && IsLowerCase(r.bgpState.value)
    ensures r.received == detail.receivedPrefixCount && r.advertised == detail.advertisedPrefixCount
    ensures r.bgpState == Some(ESTABLISHED) ==> r.lastEstablished == Some(now)
    ensures r.bgpState != Some(ESTABLISHED) ==> r.lastEstablished == state.lastEstablished
  {
    var bgpState := Lower(detail.connectionState);
    SessionState(
      Some(bgpState),
      OrZero(detail.receivedPrefixCount),
      OrZero(detail.advertisedPrefixCount),
      if bgpState == ESTABLISHED then Some(now) else state.lastEstablished)
  }

  /** Polling twice with the same record at the same time changes nothing more. */
  lemma RefreshIdempotent(state: SessionState, detail: NeighborDetail, now: Time)
    ensures Refresh(Refresh(state, detail, now), detail, now) == Refresh(state, detail, now)
  {
  }

  /** The result depends on the old state only through its stamp. */
  lemma RefreshForgetsOldState(s1: SessionState, s2: SessionState, detail: NeighborDetail, now: Time)
    requires s1.lastEstablished == s2.lastEstablished
    ensures Refresh(s1, detail, now) == Refresh(s2, detail, now)
  {
  }

  /**
   * A session that was already established and is seen established again gets a new stamp:
   * the stamp is not kept for transitions into the state only.
   */
  lemma RefreshRestampsEstablished(state: SessionState, detail: NeighborDetail, earlier: Time, now: Time)
    requires state.bgpState == Some(ESTABLISHED) && state.lastEstablished == Some(earlier)
    requires detail.connectionState == "Established" && earlier < now
    ensures Refresh(state, detail, now).lastEstablished == Some(now) != state.lastEstablished
  {
    assert Lower("Established") == ESTABLISHED;
  }

  /** A count of -1 (unknown, for some drivers) survives `or 0` and is stored negative. */
  lemma IxpRefreshKeepsNegativeCount(state: SessionState, detail: NeighborDetail, now: Time)
    requires detail.receivedPrefixCount == -1
    ensures IxpRefresh(state, detail, now).received == -1
    ensures Refresh(state, detail, now).received == 0
  {
  }
}
