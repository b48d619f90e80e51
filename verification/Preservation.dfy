/** Every handler keeps the invariant, branch by branch. */
module Preservation {
  import opened Bytes
  import opened Time
  import opened Timers
  import opened Config
  import opened Protocol
  import opened Invariant
  import opened Effects

  /** What survives in every state, even between the steps of one handler. */
  predicate Sound(s: Client) {
    && WellSized(s.offered)
    && InRange(s.p.width, s.toEvent)
    && (LastSent(s.log).Some? ==> LastSent(s.log).value.xid == s.xid)
    && GoodHistory(s.p, s.log)
  }

  /** A configuration is held: bound once, not yet given up. */
  ghost predicate Holding(s: Client) {
    && Sound(s)
    && HasLease(s) && s.current == s.offered && FromAck(s, s.offered)
    && TimersOrdered(s)
    && (s.current.gateway != 0 && s.p.arpcheckGateway != 0 && s.defgw[0] != 255
        ==> LearnedSinceInit(s.log, s.p.hwaddr, s.current.gateway, s.defgw))
  }

  /** No configuration is held. */
  predicate Unbound(s: Client) {
    && Sound(s)
    && !HasLease(s) && s.current == ZERO && s.t1 == s.t2 == s.lease == CLEARED
  }

  lemma InvSplit(s: Client)
    requires Inv(s)
    ensures Sound(s) && Descriptors(s)
    ensures if HasLease(s) then Holding(s) else Unbound(s)
  {
  }

  lemma ChangeKeeps(s: Client, r: Client, to: State)
    requires ChangeEffect(s, r, to)
    ensures Sound(s) ==> Sound(r)
    ensures Holding(s) ==> Holding(r)
    ensures Unbound(s) ==> Unbound(r)
  {
  }

  lemma SendKeeps(s: Client, r: Client)
    requires SendEffect(s, r)
    ensures Sound(s) ==> Sound(r)
    ensures Holding(s) ==> Holding(r)
    ensures Unbound(s) ==> Unbound(r)
    ensures Descriptors(s) ==> Descriptors(r)
  {
  }

  lemma QueryKeeps(s: Client, r: Client)
    requires QueryEffect(s, r)
    ensures Sound(s) ==> Sound(r)
    ensures Holding(s) ==> Holding(r)
    ensures Unbound(s) ==> Unbound(r)
    ensures Descriptors(s) ==> Descriptors(r)
  {
  }

  lemma InitKeeps(s: Client, r: Client)
    requires Sound(s) && InitEffect(s, r)
    ensures Unbound(r) && Descriptors(r)
  {
  }

  lemma BoundKeeps(s: Client, r: Client)
    requires Sound(s) && FromAck(s, s.offered) && BoundEffect(s, r)
    requires s.state == ArpCheckGateway ==>
               s.current.gateway == s.offered.gateway && LearnedSinceInit(s.log, s.p.hwaddr, s.current.gateway, s.defgw)
    ensures Holding(r)
  {
  }

  // ----- assembling the invariant in each state -----

  lemma InInit(s: Client)
    requires Unbound(s) && Descriptors(s) && 0 <= s.sockRaw && s.state == Init
    ensures Inv(s)
  {
  }

  lemma InRequesting(s: Client)
    requires Unbound(s) && Descriptors(s) && 0 <= s.sockRaw && s.state == Requesting
    requires s.offered.msgType == OFFER && AskedLast(s)
    requires 1 <= s.cnt <= 3 && Sends(s.log) == s.cnt
    ensures Inv(s)
  {
  }

  lemma InInitReboot(s: Client)
    requires Holding(s) && Descriptors(s) && 0 <= s.sockRaw && s.state == InitReboot
    requires AskedLast(s)
    requires s.cnt <= 1 && 1 <= Sends(s.log) <= 2 && (s.cnt == 0 ==> Sends(s.log) == 1)
    ensures Inv(s)
  {
  }

  lemma InArpCheck(s: Client)
    requires Unbound(s) && Descriptors(s) && 0 <= s.sockRaw && s.state == ArpCheck
    requires FromAck(s, s.offered) && Queries(s.log) == s.cnt + 1 <= s.p.arpcheck
    ensures Inv(s)
  {
  }

  lemma InArpCheckGateway(s: Client)
    requires Holding(s) && Descriptors(s) && 0 <= s.sockRaw && s.state == ArpCheckGateway
    requires s.current.gateway != 0 && s.defgw[0] != 255
    requires Queries(s.log) == s.cnt + 1 <= s.p.arpcheckGateway
    ensures Inv(s)
  {
  }

  lemma InBound(s: Client)
    requires Holding(s) && Descriptors(s) && s.state == Bound && s.toEvent == s.t1
    ensures Inv(s)
  {
  }

  lemma InRenewing(s: Client)
    requires Holding(s) && Descriptors(s) && 0 <= s.sockRaw && s.state == Renewing
    requires AskedLast(s) && !Before(s.t2, s.toEvent)
    requires Budget(s.t1, s.t2, s.toEvent, Sends(s.log))
    ensures Inv(s)
  {
  }

  lemma InRebinding(s: Client)
    requires Holding(s) && Descriptors(s) && 0 <= s.sockRaw && s.state == Rebinding
    requires AskedLast(s) && !Before(s.lease, s.toEvent)
    requires Budget(s.t2, s.lease, s.toEvent, Sends(s.log))
    ensures Inv(s)
  {
  }

  lemma InOperDown(s: Client)
    requires Holding(s) || Unbound(s)
    requires Descriptors(s) && 0 <= s.sockRaw && s.state == OperDown
    ensures Inv(s)
  {
  }

  // ----- times -----

  lemma BackoffInRange(w: Width, now: TimeVal, cnt: nat, random: nat)
    ensures InRange(w, Backoff(w, now, cnt, random))
  {
    WrapWrap(w, (Micros(now) + BackoffDelay(cnt, random)) / MILLION, 0);
  }

  lemma SoonInRange(w: Width, now: TimeVal)
    requires Normal(now)
    ensures InRange(w, TimerAdd(w, now, HALF_SECOND))
  {
    WrapWrap(w, now.sec, 1);
    WrapWrap(w, now.sec, 0);
    WrapWrap(w, Wrap(w, now.sec) + 1, 0);
  }

  lemma WrappedInRange(w: Width, now: TimeVal, secs: int)
    requires Normal(now)
    ensures InRange(w, now.(sec := Wrap(w, now.sec + secs)))
  {
    WrapWrap(w, now.sec + secs, 0);
  }
}
