/** Timers cannot livelock: the next timeout always moves past the present. */
module Progress {
  import opened Time
  import opened Timers
  import opened Protocol
  import opened Invariant
  import opened Effects
  import opened Preservation
  import opened Handlers
  import opened Runs
  import opened Transitions

  /** The clock is a little more than a minute short of the end of time_t. */
  predicate Room(w: Width, now: TimeVal) {
    now.sec + 66 <= MaxSec(w)
  }

  lemma SoonIsLater(w: Width, now: TimeVal)
    requires Clock(w, now)
    ensures Before(now, TimerAdd(w, now, HALF_SECOND)) <==> (Micros(now) + 500_000) / MILLION <= MaxSec(w)
  {
    WrapIdentity(w, now.sec);
    if now.sec + 1 <= MaxSec(w) {
      WrapIdentity(w, now.sec + 1);
    } else {
      assert Wrap(w, now.sec + 1) < 0;
    }
  }

  /** States whose timeout sets the next one itself. */
  predicate Advances(s: Client) {
    || s.state == Init || s.state == ArpCheckGateway || s.state == Requesting
    || Keeping(s)
    || (s.state == InitReboot && s.cnt == 0)
    || (s.state == ArpCheck && s.cnt + 1 < s.p.arpcheck)
  }

  /** How many microseconds ahead a due timeout schedules the next one, where that is not bounded by a deadline. */
  function Ahead(s: Client, env: Env): int {
    match s.state
    case Init => BackoffDelay(s.cnt + 1, env.backoff)
    case ArpCheckGateway => if s.cnt + 1 >= s.p.arpcheckGateway then BackoffDelay(1, env.backoff) else 500_000
    case Requesting => BackoffDelay(if s.cnt < 3 then s.cnt + 1 else 1, env.backoff)
    case ArpCheck => 500_000
    case InitReboot => BackoffDelay(1, env.backoff)
    case _ => if Before(env.now, s.lease) then 0 else BackoffDelay(1, env.backoff)
  }

  /** That instant can be represented. */
  predicate Reaches(s: Client, env: Env) {
    (Micros(env.now) + Ahead(s, env)) / MILLION <= MaxSec(s.p.width)
  }

  lemma RoomReaches(s: Client, env: Env)
    requires Normal(env.now) && Room(s.p.width, env.now)
    ensures Reaches(s, env)
  {
    BackoffWindow(s.cnt + 1, env.backoff);
    BackoffWindow(1, env.backoff);
  }

  lemma SendAdvances(s: Client, env: Env)
    requires HasMessage(s) && Clock(s.p.width, env.now)
    ensures Before(env.now, SendAndBackOff(s, env).toEvent)
       <==> (Micros(env.now) + BackoffDelay(s.cnt + 1, env.backoff)) / MILLION <= MaxSec(s.p.width)
  {
    OutgoingConforms(s.(xid := env.xid % 0x1_0000_0000));
    BackoffLater(s.p.width, env.now, s.cnt + 1, env.backoff);
  }

  lemma RebindingAdvances(s: Client, env: Env)
    requires Holding(s) && Descriptors(s) && 0 <= s.sockRaw && s.state == Rebinding && Clock(s.p.width, env.now)
    ensures Before(env.now, TimeoutRebinding(s, env).toEvent) <==> Reaches(s, env)
  {
    if !Before(env.now, s.lease) {
      ChangingToInit(s, env);
      SendAdvances(ChangeState(s, Init, env), env);
    } else {
      BackoffMiddleBounds(s.p.width, env.now, s.lease);
    }
  }

  lemma RenewingAdvances(s: Client, env: Env)
    requires Holding(s) && Descriptors(s) && 0 <= s.sockRaw && s.state == Renewing && Clock(s.p.width, env.now)
    ensures Before(env.now, TimeoutRenewing(s, env).toEvent) <==> Reaches(s, env)
  {
    if !Before(env.now, s.t2) {
      Changing(s, Rebinding, env);
      ChangeKeeps(s, ChangeState(s, Rebinding, env), Rebinding);
      RebindingAdvances(ChangeState(s, Rebinding, env), env);
    } else {
      BackoffMiddleBounds(s.p.width, env.now, s.t2);
    }
  }

  lemma BoundAdvances(s: Client, env: Env)
    requires Inv(s) && EnvOk(s, env) && s.state == Bound && !Before(env.now, s.t1)
    ensures Before(env.now, TimeoutBound(s, env).toEvent) <==> Reaches(s, env)
  {
    InvSplit(s);
    Changing(s, Renewing, env);
    ChangeKeeps(s, ChangeState(s, Renewing, env), Renewing);
    RenewingAdvances(ChangeState(s, Renewing, env), env);
  }

  lemma GatewayAdvances(s: Client, env: Env)
    requires Inv(s) && EnvOk(s, env) && s.state == ArpCheckGateway
    ensures Before(env.now, TimeoutArpCheckGateway(s, env).toEvent) <==> Reaches(s, env)
  {
    InvSplit(s);
    var b := Bump(s);
    if b.cnt >= s.p.arpcheckGateway {
      Changing(b, InitReboot, env);
      SendAdvances(ChangeState(b, InitReboot, env), env);
    } else {
      SoonIsLater(s.p.width, env.now);
    }
  }

  lemma RequestingAdvances(s: Client, env: Env)
    requires Inv(s) && EnvOk(s, env) && s.state == Requesting
    ensures Before(env.now, TimeoutRequesting(s, env).toEvent) <==> Reaches(s, env)
  {
    InvSplit(s);
    if s.cnt < 3 {
      SendAdvances(s, env);
    } else {
      ChangingToInit(s, env);
      BackoffLater(s.p.width, env.now, 1, env.backoff);
    }
  }

  /** A due timeout of such a state schedules the next one later if and only if time_t reaches that far. */
  lemma OneTimeoutAdvances(s: Client, env: Env)
    requires Inv(s) && EnvOk(s, env) && Advances(s) && !Before(env.now, s.toEvent)
    ensures Before(env.now, HandleTimeout(s, env).toEvent) <==> Reaches(s, env)
  {
    InvSplit(s);
    match s.state {
      case Init => SendAdvances(s, env);
      case ArpCheckGateway => GatewayAdvances(s, env);
      case InitReboot => SendAdvances(s, env);
      case Requesting => RequestingAdvances(s, env);
      case ArpCheck => SoonIsLater(s.p.width, env.now);
      case Bound => BoundAdvances(s, env);
      case Renewing => RenewingAdvances(s, env);
      case Rebinding => RebindingAdvances(s, env);
    }
  }

  /** The two states that hand over to another one due at once. */
  lemma HandsOver(s: Client, env: Env)
    requires Inv(s) && EnvOk(s, env) && HasTimeout(s) && !Advances(s) && !Before(env.now, s.toEvent)
    ensures Advances(HandleTimeout(s, env)) && HandleTimeout(s, env).p == s.p
  {
    InvSplit(s);
    if s.state == InitReboot {
      ChangingToInit(s, env);
    } else {
      BecomingBound(Bump(s), env);
    }
  }

  /** The client waits for what comes later than `now`. */
  predicate Waits(s: Client, now: TimeVal) {
    Before(now, s.toEvent)
  }

  /**
   * From every reachable state with a timeout, at most two timeouts handled at
   * one instant leave the next one strictly later than that instant: one is
   * enough unless the state hands over, and each is exactly when the instant it
   * schedules can be represented, which it can with a minute of room.
   */
  lemma NoLivelock(s: Client, first: Env, second: Env)
    requires Reachable(s) && HasTimeout(s) && first.now == second.now
    requires EnvOk(s, first) && EnvOk(HandleTimeout(s, first), second)
    ensures var r := HandleTimeout(s, first);
            Waits(s, first.now)
            || (Advances(s) && (Waits(r, first.now) <==> Reaches(s, first)))
            || (!Advances(s) && Advances(r)
                && (Waits(r, first.now) || (Waits(HandleTimeout(r, second), first.now) <==> Reaches(r, second))))
    ensures Room(s.p.width, first.now) ==>
              var r := HandleTimeout(s, first); Waits(r, first.now) || Waits(HandleTimeout(r, second), first.now)
  {
    ReachableInv(s);
    var r := HandleTimeout(s, first);
    if !Waits(s, first.now) {
      if Advances(s) {
        OneTimeoutAdvances(s, first);
        if Room(s.p.width, first.now) { RoomReaches(s, first); }
      } else {
        HandsOver(s, first);
        TimeoutKeepsInv(s, first);
        AfterHandover(r, second);
      }
    }
  }

  lemma AfterHandover(r: Client, env: Env)
    requires Inv(r) && EnvOk(r, env) && Advances(r)
    ensures Waits(r, env.now) || (Waits(HandleTimeout(r, env), env.now) <==> Reaches(r, env))
    ensures Room(r.p.width, env.now) ==> Waits(HandleTimeout(r, env), env.now)
  {
    if !Waits(r, env.now) {
      OneTimeoutAdvances(r, env);
      if Room(r.p.width, env.now) { RoomReaches(r, env); }
    }
  }

  /** The room is needed: in the last second of 32-bit time a retry lands in the past. */
  lemma EndOfTime(s: Client, env: Env)
    requires Inv(s) && EnvOk(s, env) && s.state == Init && !Before(env.now, s.toEvent)
    requires s.p.width.Bits32? && env.now.sec == MaxSec(Bits32)
    ensures !Before(env.now, HandleTimeout(s, env).toEvent)
  {
    OneTimeoutAdvances(s, env);
    BackoffWindow(s.cnt + 1, env.backoff);
  }

  /** Two can be needed: an unanswered INIT-REBOOT falls back to INIT without touching its timeout. */
  lemma OneMayNotBeEnough(s: Client, env: Env)
    requires Reachable(s) && EnvOk(s, env) && s.state == InitReboot && s.cnt == 1 && !Before(env.now, s.toEvent)
    ensures HandleTimeout(s, env).toEvent == s.toEvent && !Before(env.now, HandleTimeout(s, env).toEvent)
  {
    ReachableInv(s);
    InvSplit(s);
    ChangingToInit(s, env);
  }

  // ----- what pt_nexttimeout promises -----

  lemma SendDiffers(s: Client, env: Env)
    requires HasMessage(s)
    ensures SendMessage(s, env).log != s.log && SendAndBackOff(s, env).log == SendMessage(s, env).log
  {
    OutgoingConforms(s.(xid := env.xid % 0x1_0000_0000));
  }

  /**
   * Waiting for the instant pt_nexttimeout returns loses nothing and is not in
   * vain: in every reachable state past REBOOTING, handling a timeout changes
   * the client exactly if one is returned and has come.
   */
  lemma WakesExactlyWhenDue(s: Client, env: Env)
    requires Reachable(s) && EnvOk(s, env) && s.state != Rebooting
    ensures HandleTimeout(s, env) != s <==> HasTimeout(s) && !Before(env.now, s.toEvent)
  {
    ReachableInv(s);
    if HasTimeout(s) && !Before(env.now, s.toEvent) {
      InvSplit(s);
      if Keeping(s) { KeepingWakes(s, env); } else { OthersWake(s, env); }
    }
  }

  lemma KeepingWakes(s: Client, env: Env)
    requires Inv(s) && EnvOk(s, env) && Keeping(s) && !Before(env.now, s.toEvent)
    ensures HandleTimeout(s, env) != s
  {
    InvSplit(s);
    TimeoutMoves(s, env);
    match s.state {
      case Bound => BoundLeaves(s, env);
      case Renewing => if Before(env.now, s.t2) { SendDiffers(s, env); } else { RenewingLeaves(s, env); }
      case Rebinding => if Before(env.now, s.lease) { SendDiffers(s, env); } else { RebindingMoves(s, env); }
    }
  }

  lemma RenewingLeaves(s: Client, env: Env)
    requires s.state == Renewing && !Before(env.now, s.t2)
    ensures TimeoutRenewing(s, env).state != Renewing
  {
    RenewingMoves(s, env);
  }

  lemma BoundLeaves(s: Client, env: Env)
    requires s.state == Bound && !Before(env.now, s.t1)
    ensures TimeoutBound(s, env).state != Bound
  {
    Entered(s, Renewing, env);
    RenewingMoves(ChangeState(s, Renewing, env), env);
  }

  lemma OthersWake(s: Client, env: Env)
    requires Inv(s) && HasTimeout(s) && !Keeping(s) && !Before(env.now, s.toEvent)
    ensures HandleTimeout(s, env) != s
  {
    InvSplit(s);
    match s.state {
      case Init => SendDiffers(s, env);
      case InitReboot => Entered(s, Init, env); SendDiffers(s, env);
      case Requesting => Entered(s, Init, env); SendDiffers(s, env);
      case ArpCheck => Entered(Bump(s), Bound, env); assert s.cnt != s.cnt + 1;
      case ArpCheckGateway =>
        Entered(Bump(s), InitReboot, env);
        SendStays(ChangeState(Bump(s), InitReboot, env), env);
    }
  }
}
