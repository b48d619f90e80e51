/**
 * How long an address may be held past the end of its lease in the three
 * states that do not watch it: boundedly in INIT_REBOOT and ARP_CHECK_GATEWAY,
 * without limit only in OPER_DOWN.
 */
module Overstay {
  import opened Bytes
  import opened Time
  import opened Timers
  import opened Config
  import opened Protocol
  import opened Invariant
  import opened Effects
  import opened Preservation
  import opened Handlers
  import opened Runs
  import opened Transitions
  import Exchange
  import Netlink

  /** The client holds its address while it asks whether it still may. */
  predicate Probing(s: Client) {
    s.state == InitReboot || s.state == ArpCheckGateway
  }

  /** How many unanswered timeouts it takes until the address is given up. */
  function Patience(s: Client): int {
    if s.state == InitReboot then (if s.cnt == 0 then 2 else 1) else s.p.arpcheckGateway - s.cnt + 1
  }

  /** Nothing is held any more. */
  predicate GivenUp(s: Client) {
    s.state == Init && !HasLease(s) && s.current == ZERO && (s.p.setAddr ==> s.addrs == {})
  }

  const LONGEST := 5 * MILLION

  /** One unanswered timeout closer to giving up, the next at most five seconds away, the address still held. */
  predicate Closer(s: Client, r: Client, now: TimeVal) {
    && Probing(r) && Patience(r) == Patience(s) - 1 && r.p == s.p
    && r.lease == s.lease && r.current == s.current && r.addrs == s.addrs
    && Micros(r.toEvent) <= Micros(now) + LONGEST
  }

  lemma SoonWithin(w: Width, now: TimeVal)
    requires Clock(w, now)
    ensures Micros(TimerAdd(w, now, HALF_SECOND)) <= Micros(now) + 500_000
  {
    AddIsShift(w, now, HALF_SECOND);
    ShiftNoLater(w, now, 500_000);
  }

  lemma FirstRetryWithin(w: Width, now: TimeVal, random: nat)
    requires Clock(w, now)
    ensures Micros(Backoff(w, now, 1, random)) <= Micros(now) + LONGEST
    ensures Micros(Backoff(w, now, 0, random)) <= Micros(now) + 3 * MILLION
  {
    BackoffWindow(1, random);
    BackoffWindow(0, random);
    ShiftNoLater(w, now, BackoffDelay(1, random));
    ShiftNoLater(w, now, BackoffDelay(0, random));
    assert Pow2(2) == 4 && Pow2(1) == 2;
  }

  lemma LastQuestion(s: Client, env: Env)
    requires Holding(s) && MayChange(s, env) && s.state == ArpCheckGateway && Clock(s.p.width, env.now)
    requires s.cnt >= s.p.arpcheckGateway
    ensures var r := SendAndBackOff(ChangeState(s, InitReboot, env), env);
            && r.state == InitReboot && r.cnt == 1 && r.p == s.p
            && r.lease == s.lease && r.current == s.current && r.addrs == s.addrs
            && Micros(r.toEvent) <= Micros(env.now) + LONGEST
  {
    Changing(s, InitReboot, env);
    ChangeKeeps(s, ChangeState(s, InitReboot, env), InitReboot);
    Sending(ChangeState(s, InitReboot, env), env);
    FirstRetryWithin(s.p.width, env.now, env.backoff);
  }

  lemma GatewayCloser(s: Client, env: Env)
    requires Inv(s) && EnvOk(s, env) && s.state == ArpCheckGateway
    ensures Closer(s, TimeoutArpCheckGateway(s, env), env.now)
  {
    InvSplit(s);
    var b := Bump(s);
    assert Holding(b);
    if b.cnt >= s.p.arpcheckGateway {
      LastQuestion(b, env);
    } else {
      SoonWithin(s.p.width, env.now);
    }
  }

  lemma RebootCloser(s: Client, env: Env)
    requires Inv(s) && EnvOk(s, env) && s.state == InitReboot && s.cnt == 0
    ensures Closer(s, SendAndBackOff(s, env), env.now)
  {
    InvSplit(s);
    Sending(s, env);
    FirstRetryWithin(s.p.width, env.now, env.backoff);
  }

  lemma GivesUp(s: Client, env: Env)
    requires Inv(s) && s.state == InitReboot
    ensures GivenUp(ChangeState(s, Init, env))
  {
    InvSplit(s);
    ChangingToInit(s, env);
  }

  /** A due timeout brings the end closer by one, or is the end. */
  lemma ProbingStep(s: Client, env: Env)
    requires Inv(s) && EnvOk(s, env) && Probing(s) && !Before(env.now, s.toEvent)
    ensures 1 <= Patience(s)
    ensures var r := HandleTimeout(s, env); if Patience(s) == 1 then GivenUp(r) else Closer(s, r, env.now)
  {
    if s.state == ArpCheckGateway {
      GatewayCloser(s, env);
    } else if s.cnt == 0 {
      RebootCloser(s, env);
    } else {
      GivesUp(s, env);
    }
  }

  function Timeouts(s: Client, envs: seq<Env>): Client
    decreases |envs|
  {
    if envs == [] then s else Timeouts(HandleTimeout(s, envs[0]), envs[1..])
  }

  /** Each timeout is handled when due, at most `slack` microseconds late. */
  predicate Punctual(s: Client, envs: seq<Env>, slack: nat)
    decreases |envs|
  {
    envs == [] ||
    (EnvOk(s, envs[0]) && !Before(envs[0].now, s.toEvent) && Micros(envs[0].now) <= Micros(s.toEvent) + slack
     && Punctual(HandleTimeout(s, envs[0]), envs[1..], slack))
  }

  /** The address is held as it was. */
  predicate StillHolds(s: Client, r: Client) {
    Probing(r) && HasLease(r) && r.lease == s.lease && r.current == s.current && r.addrs == s.addrs
  }

  /** One punctual timeout of several. */
  lemma ProbingMoves(s: Client, envs: seq<Env>, slack: nat, r: Client)
    requires Inv(s) && Probing(s) && 1 <= |envs| <= Patience(s) && 1 < Patience(s) && Punctual(s, envs, slack)
    requires r == HandleTimeout(s, envs[0])
    ensures Inv(r) && StillHolds(s, r) && Patience(r) == Patience(s) - 1 && Punctual(r, envs[1..], slack)
    ensures Micros(envs[0].now) <= Micros(s.toEvent) + slack && Micros(r.toEvent) <= Micros(envs[0].now) + LONGEST
    ensures Timeouts(s, envs) == Timeouts(r, envs[1..])
  {
    ProbingStep(s, envs[0]);
    TimeoutKeepsInv(s, envs[0]);
    StillLeased(r);
  }

  lemma StillLeased(s: Client)
    requires Inv(s) && Probing(s)
    ensures HasLease(s) && StillHolds(s, s)
  {
  }

  lemma ProbingStops(s: Client, envs: seq<Env>, slack: nat)
    requires Inv(s) && Probing(s) && 1 == |envs| == Patience(s) && Punctual(s, envs, slack)
    ensures GivenUp(Timeouts(s, envs)) && Micros(Last(envs)) <= Micros(s.toEvent) + slack
  {
    ProbingStep(s, envs[0]);
    assert envs[1..] == [];
    assert Timeouts(s, envs) == Timeouts(HandleTimeout(s, envs[0]), []) == HandleTimeout(s, envs[0]);
  }

  /** After n unanswered timeouts from s: held as it was, or given up by the last that patience allows. */
  predicate Outcome(s: Client, n: nat, r: Client) {
    if n < Patience(s) then StillHolds(s, r) else GivenUp(r)
  }

  lemma OutcomeChains(s: Client, r: Client, n: nat, e: Client)
    requires StillHolds(s, r) && Patience(r) == Patience(s) - 1 && Outcome(r, n, e)
    ensures Outcome(s, n + 1, e)
  {
  }

  lemma {:induction false} ProbingCounts(s: Client, envs: seq<Env>, slack: nat)
    requires Inv(s) && Probing(s) && |envs| <= Patience(s) && Punctual(s, envs, slack)
    ensures Outcome(s, |envs|, Timeouts(s, envs))
    decreases |envs|
  {
    AtLeastOne(s);
    if envs == [] {
      StillLeased(s);
    } else if Patience(s) == 1 {
      ProbingStops(s, envs, slack);
    } else {
      var r := HandleTimeout(s, envs[0]);
      ProbingMoves(s, envs, slack, r);
      ProbingCounts(r, envs[1..], slack);
      OutcomeChains(s, r, |envs[1..]|, Timeouts(r, envs[1..]));
    }
  }

  lemma {:induction false} ProbingLasts(s: Client, envs: seq<Env>, slack: nat)
    requires Inv(s) && Probing(s) && 1 <= |envs| <= Patience(s) && Punctual(s, envs, slack)
    ensures Micros(Last(envs)) <= Micros(s.toEvent) + Allowance(|envs|, slack)
    decreases |envs|
  {
    if |envs| > 1 {
      var r := HandleTimeout(s, envs[0]);
      ProbingMoves(s, envs, slack, r);
      ProbingLasts(r, envs[1..], slack);
    }
  }

  /** n delays, and five seconds between each two timeouts. */
  function Allowance(n: nat, slack: nat): nat
    requires n >= 1
  {
    if n == 1 then slack else slack + LONGEST + Allowance(n - 1, slack)
  }

  /** n delays and the waits between them, in closed form. */
  function InAll(n: nat, slack: nat): int {
    n * slack + (n - 1) * LONGEST
  }

  lemma {:induction false} AllowanceIs(n: nat, slack: nat)
    requires n >= 1
    ensures Allowance(n, slack) == InAll(n, slack)
  {
    if n > 1 {
      AllowanceIs(n - 1, slack);
      assert n * slack == (n - 1) * slack + slack;
    }
  }

  /**
   * Unanswered, the address is held as it was until exactly Patience(s) timeouts
   * were handled, and given up by the last of them: at most five seconds, and
   * the delay in handling, for each after the first.
   */
  lemma ProbingEnds(s: Client, envs: seq<Env>, slack: nat)
    requires Reachable(s) && Probing(s) && |envs| <= Patience(s) && Punctual(s, envs, slack)
    ensures if |envs| < Patience(s) then StillHolds(s, Timeouts(s, envs)) else GivenUp(Timeouts(s, envs))
    ensures envs != [] ==> Micros(Last(envs)) <= Micros(s.toEvent) + InAll(|envs|, slack)
  {
    ReachableInv(s);
    ProbingCounts(s, envs, slack);
    if envs != [] {
      ProbingLasts(s, envs, slack);
      ClosedForm(Micros(s.toEvent), Micros(Last(envs)), |envs|, slack);
    }
  }

  lemma ClosedForm(due: int, last: int, n: nat, slack: nat)
    requires n >= 1 && last <= due + Allowance(n, slack)
    ensures last <= due + InAll(n, slack)
  {
    AllowanceIs(n, slack);
  }

  lemma AtLeastOne(s: Client)
    requires Inv(s) && Probing(s)
    ensures 1 <= Patience(s)
  {
  }

  /** When the last of some timeouts is handled. */
  function Last(envs: seq<Env>): TimeVal
    requires envs != []
    decreases |envs|
  {
    if |envs| == 1 then envs[0].now else Last(envs[1..])
  }

  /** Only a link that comes back and SIGHUP enter the two states; the first timeout is then within three seconds. */
  lemma ProbingBegins(s: Client, i: Input)
    requires Inv(s) && Enabled(s, i) && !Probing(s) && Probing(Take(s, i))
    ensures i.step == LinkState(true) || i.step == SigHup
    ensures var r := Take(s, i);
            && Micros(r.toEvent) <= Micros(i.env.now) + 3 * MILLION && r.lease == s.lease
            && 1 <= Patience(r) <= if s.p.arpcheckGateway > 1 then s.p.arpcheckGateway + 1 else 2
  {
    InvSplit(s);
    TakeMoves(s, i);
    if i.step == SigHup {
      RebootBegins(s, i.env);
    } else {
      LinkBegins(s, i.env);
    }
  }

  lemma LinkBegins(s: Client, env: Env)
    requires MayChange(s, env) && s.state == OperDown && Clock(s.p.width, env.now)
    requires Probing(OperState(s, true, env))
    ensures var r := OperState(s, true, env);
            && Micros(r.toEvent) <= Micros(env.now) + 3 * MILLION && r.lease == s.lease && r.p == s.p && r.cnt == 0
            && (r.state == ArpCheckGateway ==> s.p.arpcheckGateway != 0)
  {
    UpMoves(s, env);
    if CanVerifyGateway(s, env.now) {
      VerifyBegins(s, env);
    } else {
      RebootBegins(s, env);
    }
  }

  lemma VerifyBegins(s: Client, env: Env)
    requires MayChange(s, env) && s.state == OperDown && Clock(s.p.width, env.now)
    ensures var r := VerifyGateway(s, env);
            && Micros(r.toEvent) <= Micros(env.now) + 500_000 && r.lease == s.lease && r.p == s.p
            && r.state == ArpCheckGateway && r.cnt == 0
  {
    Changing(s, ArpCheckGateway, env);
    SoonWithin(s.p.width, env.now);
  }

  lemma RebootBegins(s: Client, env: Env)
    requires MayChange(s, env) && s.state != InitReboot && Clock(s.p.width, env.now)
    ensures var r := Reboot(s, env);
            && Micros(r.toEvent) <= Micros(env.now) + 3 * MILLION && r.lease == s.lease && r.p == s.p
            && r.state == InitReboot && r.cnt == 0
  {
    Changing(s, InitReboot, env);
    var c := ChangeState(s, InitReboot, env);
    assert SendMessage(c, env) == c.(xid := SendMessage(c, env).xid, log := SendMessage(c, env).log);
    FirstRetryWithin(s.p.width, env.now, env.backoff);
  }

  /** No other event prolongs the wait: the client leaves the two states, or nothing that bounds the wait changes. */
  lemma OthersDoNotProlong(s: Client, i: Input)
    requires Probing(s) && !i.step.Timeout? && Probing(Take(s, i))
    ensures var r := Take(s, i); Patience(r) == Patience(s) && r.toEvent == s.toEvent && r.lease == s.lease
  {
    TakeMoves(s, i);
    match i.step {
      case Dhcp(reply) => if reply.Some? && MeantForUs(s, reply.value) { AnswerProlongsNot(s, reply.value, i.env); }
      case _ =>
    }
  }

  lemma AnswerProlongsNot(s: Client, m: DhcpReply, env: Env)
    requires Probing(s) && MeantForUs(s, m) && Probing(RecvDhcp(s, Some(m), env))
    ensures var r := RecvDhcp(s, Some(m), env); r == s.(log := r.log)
  {
    var cfg := m.cfg.(recvtime := env.now);
    var r := s.Note(Received(m.xid, m.chaddr, cfg));
    Entered(r.(offered := cfg), Bound, env);
    Entered(r, Init, env);
  }

  /** In OPER_DOWN any run of events keeps the address, however long, until the link comes back. */
  lemma {:induction false} DownKeepsHolding(s: Client, inputs: seq<Input>)
    requires s.state == OperDown && (forall k :: 0 <= k < |inputs| ==> inputs[k].step != LinkState(true))
    ensures var r := Run(s, inputs); r == s.(log := r.log)
    decreases |inputs|
  {
    if inputs != [] {
      var r := Take(s, inputs[0]);
      assert inputs[0].step != LinkState(true);
      assert r == s.(log := r.log);
      DownKeepsHolding(r, inputs[1..]);
    }
  }

  // ----- who holds an address past its lease -----

  lemma {:induction false} NeverReleasing(s: Client, inputs: seq<Input>)
    requires s.state != Releasing
    ensures Run(s, inputs).state != Releasing
    decreases |inputs|
  {
    if inputs != [] {
      TakeMoves(s, inputs[0]);
      NeverReleasing(Take(s, inputs[0]), inputs[1..]);
    }
  }

  lemma HoldingStates(s: Client)
    requires Reachable(s) && HasLease(s)
    ensures Keeping(s) || Probing(s) || s.state == OperDown
  {
    ReachableInv(s);
    var p: Params, addrs: set<Netlink.IfAddr>, inputs: seq<Input> :|
      ValidRun(Start(p, addrs), inputs) && s == Run(Start(p, addrs), inputs);
    NeverReleasing(Start(p, addrs), inputs);
  }

  /**
   * When a timeout is handled at or after the end of the lease, the address is
   * held on to exactly in OPER_DOWN, and in INIT_REBOOT and ARP_CHECK_GATEWAY
   * while a question is out or another may be asked.
   */
  lemma HeldPastExpiry(s: Client, env: Env)
    requires Reachable(s) && EnvOk(s, env) && HasLease(s) && !Before(env.now, s.lease)
    ensures HasLease(HandleTimeout(s, env))
       <==> s.state == OperDown || (Probing(s) && (Before(env.now, s.toEvent) || Patience(s) > 1))
  {
    HoldingStates(s);
    ReachableInv(s);
    if Keeping(s) {
      ExpiryReleases(s, env);
    } else if Probing(s) && !Before(env.now, s.toEvent) {
      ProbingStep(s, env);
    }
  }

  /** A state that does: its link is down, and 397 seconds after the end of the lease a timeout changes nothing. */
  lemma HeldWhileDown() returns (s: Client, env: Env)
    ensures Reachable(s) && s.state == OperDown && HasLease(s) && EnvOk(s, env)
    ensures Micros(env.now) == Micros(s.lease) + 397 * MILLION && HandleTimeout(s, env) == s
  {
    var b := Exchange.Binds(false, Exchange.LENT);
    LeaseEndsAsGranted(b);
    assert b.lease == TimeVal(4603, 0);
    var down := Input(LinkState(false), Exchange.Plain(2000, 0, 3));
    StepIsReachable(b, down);
    s := Take(b, down);
    LosesLink(b, down.env);
    env := Exchange.Plain(5000, 0, 4);
  }

  lemma LosesLink(b: Client, env: Env)
    requires MayChange(b, env) && b.state == Bound && b.sockUdp == b.sockRaw == -1 && env.udp.Refused?
    ensures var s := OperState(b, false, env);
            s.state == OperDown && s.lease == b.lease && s.fds == b.fds + {env.raw} && s.p == b.p
  {
    Changing(b.(tBoundDown := env.now), OperDown, env);
  }
}
