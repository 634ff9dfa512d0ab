/** The lock key of Redis and the three scripts of distributelock/lua.go, each atomic. */
module LeaseScripts {
  import opened Wrappers

  type Token = nat

  /** The stored token and the last millisecond at which the key exists. */
  datatype Record = Record(token: Token, expiry: int)

  type Store = Option<Record>

  predicate Exists(s: Store, now: int)
  {
    s.Some? && now <= s.value.expiry
  }

  predicate HeldBy(s: Store, now: int, token: Token)
  {
    Exists(s, now) && s.value.token == token
  }

  /** A script either answers with a number or fails without effect. */
  datatype Reply = Number(n: int) | Failure

  /** SET refuses a lifetime that is not positive. */
  function LockScript(s: Store, now: int, token: Token, ms: int): (r: (Store, Reply))
  {
    if Exists(s, now) then (s, Number(0))
    else if ms <= 0 then (s, Failure)
    else (Some(Record(token, now + ms)), Number(1))
  }

  function UnlockScript(s: Store, now: int, token: Token): (r: (Store, Reply))
  {
    if HeldBy(s, now, token) then (None, Number(1)) else (s, Number(0))
  }

  /** PEXPIRE deletes the key when the lifetime is not positive. */
  function RefreshScript(s: Store, now: int, token: Token, ms: int): (r: (Store, Reply))
  {
    if !HeldBy(s, now, token) then (s, Number(0))
    else if ms <= 0 then (None, Number(1))
    else (Some(Record(token, now + ms)), Number(1))
  }
}

/** The lock client of distributelock/lock.go. */
module RedisLocks {
  import opened Wrappers
  import opened LeaseScripts

  class Redis {
    var store: Store
    var now: int

    constructor ()
      ensures store == None && now == 0
    {
      store, now := None, 0;
    }
  }

  datatype Outcome = Success | AlreadyHeld | AcquireFailed | NotHeld | CallFailed

  class RedisLock {
    const client: Redis
    const val: Token
    const expireMS: int
    const enableWatchdog: bool
    var isLocked: bool
    var watchdog: bool

    constructor (client: Redis, val: Token, expireMS: int, enableWatchdog: bool)
      ensures this.client == client && this.val == val && this.expireMS == expireMS
      ensures this.enableWatchdog == enableWatchdog && !isLocked && !watchdog
    {
      this.client, this.val, this.expireMS, this.enableWatchdog := client, val, expireMS, enableWatchdog;
      isLocked, watchdog := false, false;
    }

    /** Success means: the key was free and is now held under this token for the whole lifetime. */
    method TryLock(fault: Fault) returns (r: Outcome)
      modifies this, client`store
      ensures r.AlreadyHeld? <==> old(isLocked)
      ensures r.Success? <==> !old(isLocked) && fault.Fine? && expireMS > 0 && !Exists(old(client.store), client.now)
      ensures r.Success? ==> client.store == Some(Record(val, client.now + expireMS))
      ensures r.AcquireFailed? <==> !old(isLocked) && fault.Fine? && Exists(old(client.store), client.now)
      ensures isLocked <==> old(isLocked) || r.Success?
      ensures watchdog == if r.Success? then old(watchdog) || enableWatchdog else old(watchdog)
      ensures client.store == if old(isLocked) || fault.RequestLost? then old(client.store)
                              else LockScript(old(client.store), client.now, val, expireMS).0
    {
      if isLocked {
        return AlreadyHeld;
      }
      if fault.RequestLost? {
        return CallFailed;
      }
      var (store, reply) := LockScript(client.store, client.now, val, expireMS);
      client.store := store;
      if fault.ReplyLost? || reply.Failure? {
        return CallFailed;
      }
      if reply.n != 1 {
        return AcquireFailed;
      }
      isLocked := true;
      if enableWatchdog {
        watchdog := true;
      }
      return Success;
    }

    /** Removes the key only if it holds this token; without an answer the lock still counts as held here. */
    method Unlock(fault: Fault) returns (r: Outcome)
      modifies this, client`store
      ensures client.store == (if old(isLocked) && !fault.RequestLost? && HeldBy(old(client.store), client.now, val)
                               then None else old(client.store))
      ensures r.Success? <==> old(isLocked) && fault.Fine? && HeldBy(old(client.store), client.now, val)
      ensures r.NotHeld? <==> !old(isLocked) || (fault.Fine? && !HeldBy(old(client.store), client.now, val))
      ensures r in {Success, NotHeld, CallFailed}
      ensures isLocked <==> r.CallFailed?
      ensures watchdog == (old(watchdog) && !old(isLocked))
    {
      if !isLocked {
        return NotHeld;
      }
      watchdog := false;
      if fault.RequestLost? {
        return CallFailed;
      }
      var (store, reply) := UnlockScript(client.store, client.now, val);
      client.store := store;
      if fault.ReplyLost? {
        return CallFailed;
      }
      isLocked := false;
      return if reply == Number(0) then NotHeld else Success;
    }

    /** Prolongs the key only if it holds this token; learning that it does not ends the lock here. */
    method Refresh(fault: Fault) returns (r: Outcome)
      modifies this`isLocked, client`store
      ensures client.store ==
              if old(isLocked) && !fault.RequestLost? then RefreshScript(old(client.store), client.now, val, expireMS).0
              else old(client.store)
      ensures r.Success? && expireMS > 0 ==> client.store == Some(Record(val, client.now + expireMS))
      ensures !HeldBy(old(client.store), client.now, val) ==> client.store == old(client.store)
      ensures r.Success? <==> old(isLocked) && fault.Fine? && HeldBy(old(client.store), client.now, val)
      ensures r.NotHeld? <==> !old(isLocked) || (fault.Fine? && !HeldBy(old(client.store), client.now, val))
      ensures r in {Success, NotHeld, CallFailed}
      ensures isLocked <==> old(isLocked) && !r.NotHeld?
    {
      if !isLocked {
        return NotHeld;
      }
      if fault.RequestLost? {
        return CallFailed;
      }
      var (store, reply) := RefreshScript(client.store, client.now, val, expireMS);
      client.store := store;
      if fault.ReplyLost? {
        return CallFailed;
      }
      if reply == Number(0) {
        isLocked := false;
        return NotHeld;
      }
      return Success;
    }
  }
}

/** Runs of many clients against one key: calls, scripts, replies and time interleave freely. */
module LeaseProtocol {
  import opened Wrappers
  import opened LeaseScripts

  /** A foreground call in progress: not yet run by the server, or with its reply on the way. */
  datatype Phase = Ready | Acquiring | Acquired(ok: bool) | Unlocking | Unlocked

  /** The lease a client was granted: none yet, up to a moment, or given up by calling Unlock. */
  datatype Lease = NoLease | Until(deadline: int) | Released

  /** replies holds the answers to refreshes that are still on the way. */
  datatype Client = Client(isLocked: bool, phase: Phase, lease: Lease, replies: seq<bool>)

  datatype State = State(now: int, store: Store, clients: seq<Client>)

  datatype Action =
    | Tick(d: nat)
    | TryLock(c: nat)
    | LockRuns(c: nat, lost: bool)
    | LockReturns(c: nat)
    | Unlock(c: nat)
    | UnlockRuns(c: nat, lost: bool)
    | UnlockReturns(c: nat)
    | CallLost(c: nat)
    | RefreshRuns(c: nat, lost: bool)
    | RefreshReturns(c: nat, i: nat)

  predicate Enabled(s: State, a: Action)
  {
    a.Tick? ||
    (a.c < |s.clients| &&
     var me := s.clients[a.c];
     match a
     case TryLock(_) => me.phase.Ready? && !me.isLocked
     case LockRuns(_, _) => me.phase.Acquiring?
     case LockReturns(_) => me.phase.Acquired?
     case Unlock(_) => me.phase.Ready? && me.isLocked
     case UnlockRuns(_, _) => me.phase.Unlocking?
     case UnlockReturns(_) => me.phase.Unlocked?
     case CallLost(_) => me.phase.Acquiring? || me.phase.Unlocking?
     case RefreshReturns(_, i) => i < |me.replies|
     case _ => true)
  }

  function Step(s: State, a: Action, ms: nat -> int): (s': State)
    requires Enabled(s, a)
    ensures |s'.clients| == |s.clients|
  {
    if a.Tick? then s.(now := s.now + a.d)
    else
      var me := s.clients[a.c];
      match a
      case TryLock(c) => s.(clients := s.clients[c := me.(phase := Acquiring)])
      case LockRuns(c, lost) =>
        var (store, reply) := LockScript(s.store, s.now, c, ms(c));
        var got := reply == Number(1);
        var phase := if lost || reply.Failure? then Ready else Acquired(got);
        var lease := if got then Until(s.now + ms(c)) else me.lease;
        State(s.now, store, s.clients[c := me.(phase := phase, lease := lease)])
      case LockReturns(c) => s.(clients := s.clients[c := me.(phase := Ready, isLocked := me.isLocked || me.phase.ok)])
      case Unlock(c) => s.(clients := s.clients[c := me.(phase := Unlocking, lease := Released)])
      case UnlockRuns(c, lost) =>
        State(s.now, UnlockScript(s.store, s.now, c).0, s.clients[c := me.(phase := if lost then Ready else Unlocked)])
      case UnlockReturns(c) => s.(clients := s.clients[c := me.(phase := Ready, isLocked := false)])
      case CallLost(c) => s.(clients := s.clients[c := me.(phase := Ready)])
      case RefreshRuns(c, lost) =>
        var (store, reply) := RefreshScript(s.store, s.now, c, ms(c));
        var ok := reply == Number(1);
        var lease := if ok && me.lease.Until? then Until(s.now + ms(c)) else me.lease;
        var replies := if lost then me.replies else me.replies + [ok];
        State(s.now, store, s.clients[c := me.(lease := lease, replies := replies)])
      case RefreshReturns(c, i) =>
        var replies := me.replies[..i] + me.replies[i + 1..];
        s.(clients := s.clients[c := me.(isLocked := me.isLocked && me.replies[i], replies := replies)])
  }

  /** The client's lease has not run out. */
  predicate Holds(s: State, c: nat)
  {
    c < |s.clients| && s.clients[c].lease.Until? && s.now <= s.clients[c].lease.deadline
  }

  /** An unexpired lease is backed by the key; a client that thinks it is locked was granted a lease. */
  ghost predicate Inv(s: State, ms: nat -> int)
  {
    && (forall c :: 0 <= c < |s.clients| && Holds(s, c) ==> s.store == Some(Record(c, s.clients[c].lease.deadline)))
    && (s.store.Some? ==> s.store.value.token < |s.clients| && ms(s.store.value.token) > 0)
    && (forall c :: 0 <= c < |s.clients| && (s.clients[c].isLocked || s.clients[c].phase == Acquired(true)) ==>
          !s.clients[c].lease.NoLease?)
    && (forall c :: 0 <= c < |s.clients| && s.clients[c].phase.Unlocking? ==> s.clients[c].lease.Released?)
  }

  lemma StepKeepsInv(s: State, a: Action, ms: nat -> int)
    requires Inv(s, ms) && Enabled(s, a)
    ensures Inv(Step(s, a, ms), ms)
  {
    var s' := Step(s, a, ms);
    forall c | 0 <= c < |s'.clients| && Holds(s', c)
      ensures s'.store == Some(Record(c, s'.clients[c].lease.deadline))
    {
      assert a.Tick? || a.c != c ==> Holds(s, c);
    }
  }

  ghost predicate Runs(s: State, actions: seq<Action>, ms: nat -> int)
    decreases |actions|
  {
    actions != [] ==> Enabled(s, actions[0]) && Runs(Step(s, actions[0], ms), actions[1..], ms)
  }

  ghost function RunTo(s: State, actions: seq<Action>, ms: nat -> int): (s': State)
    requires Runs(s, actions, ms)
    decreases |actions|
  {
    if actions == [] then s else RunTo(Step(s, actions[0], ms), actions[1..], ms)
  }

  function Start(clients: nat): (s: State)
  {
    State(0, None, seq(clients, i => Client(false, Ready, NoLease, [])))
  }

  lemma {:induction false} RunKeepsInv(s: State, actions: seq<Action>, ms: nat -> int)
    requires Inv(s, ms) && Runs(s, actions, ms)
    ensures Inv(RunTo(s, actions, ms), ms)
    decreases |actions|
  {
    if actions != [] {
      StepKeepsInv(s, actions[0], ms);
      RunKeepsInv(Step(s, actions[0], ms), actions[1..], ms);
    }
  }

  /** In every run at most one client has an unexpired lease. */
  lemma LeaseExclusion(clients: nat, actions: seq<Action>, ms: nat -> int, a: nat, b: nat)
    requires Runs(Start(clients), actions, ms)
    requires Holds(RunTo(Start(clients), actions, ms), a) && Holds(RunTo(Start(clients), actions, ms), b)
    ensures a == b
  {
    RunKeepsInv(Start(clients), actions, ms);
  }

  /** The lease was given up or has run out. */
  predicate Stale(s: State, c: nat)
    requires c < |s.clients|
  {
    s.clients[c].lease.Released? || (s.clients[c].lease.Until? && s.now > s.clients[c].lease.deadline)
  }

  /** Of two clients that think they are locked, one has a lease that was given up or has run out. */
  lemma TwoLockedOneStale(clients: nat, actions: seq<Action>, ms: nat -> int, a: nat, b: nat)
    requires Runs(Start(clients), actions, ms)
    requires var s := RunTo(Start(clients), actions, ms);
             a < |s.clients| && b < |s.clients| && a != b && s.clients[a].isLocked && s.clients[b].isLocked
    ensures var s := RunTo(Start(clients), actions, ms); Stale(s, a) || Stale(s, b)
  {
    RunKeepsInv(Start(clients), actions, ms);
  }

  /** When client b's script runs while another client a thinks it is locked: b is granted the key exactly if b's
      lifetime is positive and no client's token is in the key, and then a's lease was given up or has run out. */
  lemma SecondGrantIff(clients: nat, actions: seq<Action>, ms: nat -> int, a: nat, b: nat, lost: bool)
    requires Runs(Start(clients), actions, ms)
    requires var s := RunTo(Start(clients), actions, ms);
             Enabled(s, LockRuns(b, lost)) && a < |s.clients| && a != b && s.clients[a].isLocked
    ensures var s := RunTo(Start(clients), actions, ms);
            var t := Step(s, LockRuns(b, lost), ms);
            && (LockScript(s.store, s.now, b, ms(b)).1 == Number(1) <==>
                  ms(b) > 0 && forall c :: 0 <= c < |s.clients| ==> !HeldBy(s.store, s.now, c))
            && (LockScript(s.store, s.now, b, ms(b)).1 == Number(1) ==>
                  Stale(s, a) && t.clients[a].isLocked && Holds(t, b) && t.clients[b].lease == Until(s.now + ms(b)))
  {
    RunKeepsInv(Start(clients), actions, ms);
    var s := RunTo(Start(clients), actions, ms);
    if Exists(s.store, s.now) {
      assert HeldBy(s.store, s.now, s.store.value.token);
    } else {
      assert !Holds(s, a);
    }
  }

  /** An Unlock that is not interrupted leaves the client unlocked and the key free of its token; a refresh leaves it
      locked exactly if the key held its token, and then prolonged. */
  lemma UninterruptedCalls(s: State, c: nat, ms: nat -> int)
    requires c < |s.clients| && s.clients[c].phase.Ready? && s.clients[c].isLocked && s.clients[c].replies == []
    ensures var u := Step(Step(Step(s, Unlock(c), ms), UnlockRuns(c, false), ms), UnlockReturns(c), ms);
            && !u.clients[c].isLocked && u.clients[c].phase == Ready
            && u.store == if HeldBy(s.store, s.now, c) then None else s.store
    ensures var u := Step(Step(s, RefreshRuns(c, false), ms), RefreshReturns(c, 0), ms);
            && (u.clients[c].isLocked <==> HeldBy(s.store, s.now, c)) && u.clients[c].replies == []
            && (HeldBy(s.store, s.now, c) && ms(c) > 0 ==> u.store == Some(Record(c, s.now + ms(c))))
            && (!HeldBy(s.store, s.now, c) ==> u.store == s.store)
  {
  }

  function LockCalls(c: nat): (actions: seq<Action>)
  {
    [TryLock(c), LockRuns(c, false), LockReturns(c)]
  }

  /** Two clients can think so at once: the first one's lease runs out and nobody tells it. */
  lemma TwoLockedHappens(ms: nat -> int, s: State)
    requires ms(0) > 0 && ms(1) > 0 && s == Start(2)
    ensures Runs(s, LockCalls(0) + [Tick(ms(0) + 1)] + LockCalls(1), ms)
    ensures var t := RunTo(s, LockCalls(0) + [Tick(ms(0) + 1)] + LockCalls(1), ms);
            |t.clients| == 2 && t.clients[0].isLocked && t.clients[1].isLocked && Stale(t, 0) && Holds(t, 1)
  {
    var pause := Tick(ms(0) + 1);
    Locks(s, 0, [pause] + LockCalls(1), ms);
    var s1 := Step(Step(Step(s, TryLock(0), ms), LockRuns(0, false), ms), LockReturns(0), ms);
    var s2 := Step(s1, pause, ms);
    Locks(s2, 1, [], ms);
    assert LockCalls(1) + [] == LockCalls(1);
    RunsOneMore(s1, pause, LockCalls(1), ms);
    assert LockCalls(0) + [pause] + LockCalls(1) == LockCalls(0) + ([pause] + LockCalls(1));
  }

  /** A successful TryLock, run without interruption, and what follows. */
  lemma Locks(s: State, c: nat, after: seq<Action>, ms: nat -> int)
    requires c < |s.clients| && s.clients[c].phase.Ready? && !s.clients[c].isLocked
    requires !Exists(s.store, s.now) && ms(c) > 0
    ensures Enabled(s, TryLock(c)) && Enabled(Step(s, TryLock(c), ms), LockRuns(c, false))
    ensures Enabled(Step(Step(s, TryLock(c), ms), LockRuns(c, false), ms), LockReturns(c))
    ensures var t := Step(Step(Step(s, TryLock(c), ms), LockRuns(c, false), ms), LockReturns(c), ms);
            && t.clients[c].isLocked && t.clients[c].lease == Until(s.now + ms(c)) && t.now == s.now
            && t.store == Some(Record(c, s.now + ms(c)))
            && (forall b :: 0 <= b < |s.clients| && b != c ==> t.clients[b] == s.clients[b])
            && (Runs(t, after, ms) ==>
                  Runs(s, LockCalls(c) + after, ms) && RunTo(s, LockCalls(c) + after, ms) == RunTo(t, after, ms))
  {
    var s1 := Step(s, TryLock(c), ms);
    var s2 := Step(s1, LockRuns(c, false), ms);
    var s3 := Step(s2, LockReturns(c), ms);
    if Runs(s3, after, ms) {
      RunsOneMore(s2, LockReturns(c), after, ms);
      RunsOneMore(s1, LockRuns(c, false), [LockReturns(c)] + after, ms);
      RunsOneMore(s, TryLock(c), [LockRuns(c, false)] + ([LockReturns(c)] + after), ms);
      assert LockCalls(c) + after == [TryLock(c)] + ([LockRuns(c, false)] + ([LockReturns(c)] + after));
    }
  }

  lemma RunsOneMore(s: State, a: Action, after: seq<Action>, ms: nat -> int)
    requires Enabled(s, a) && Runs(Step(s, a, ms), after, ms)
    ensures Runs(s, [a] + after, ms) && RunTo(s, [a] + after, ms) == RunTo(Step(s, a, ms), after, ms)
  {
    assert ([a] + after)[1..] == after;
  }

  /** No call of another client, whatever it is, touches an unexpired lease or the key behind it. */
  lemma OthersLeaveLeaseAlone(s: State, a: Action, ms: nat -> int, c: nat)
    requires Inv(s, ms) && Enabled(s, a) && Holds(s, c) && !a.Tick? && a.c != c
    ensures var s' := Step(s, a, ms);
            Holds(s', c) && s'.clients[c] == s.clients[c] && s'.store == s.store
  {
  }

  /** Counting from a grant, c's refreshes come at most ms(c) apart, and c does not call Unlock. */
  ghost predicate Punctual(actions: seq<Action>, c: nat, elapsed: nat, limit: int)
    decreases |actions|
  {
    actions != [] ==>
      match actions[0]
      case Tick(d) => elapsed + d <= limit && Punctual(actions[1..], c, elapsed + d, limit)
      case RefreshRuns(b, _) => Punctual(actions[1..], c, if b == c then 0 else elapsed, limit)
      case Unlock(b) => b != c && Punctual(actions[1..], c, elapsed, limit)
      case _ => Punctual(actions[1..], c, elapsed, limit)
  }

  /** No client other than c gets the key during the run, and every refresh of c succeeds. */
  ghost predicate KeptBy(s: State, actions: seq<Action>, ms: nat -> int, c: nat)
    requires Runs(s, actions, ms)
    decreases |actions|
  {
    && HeldBy(s.store, s.now, c)
    && (actions != [] ==>
          && (actions[0].LockRuns? ==> LockScript(s.store, s.now, actions[0].c, ms(actions[0].c)).1 == Number(0))
          && (actions[0].RefreshRuns? && actions[0].c == c ==>
                RefreshScript(s.store, s.now, c, ms(c)).1 == Number(1))
          && KeptBy(Step(s, actions[0], ms), actions[1..], ms, c))
  }

  /** Refreshing in time keeps the lease for the whole run and everybody else out. */
  lemma {:induction false} PunctualRefreshKeepsLease(s: State, actions: seq<Action>, ms: nat -> int, c: nat,
                                                     elapsed: nat)
    requires Inv(s, ms) && Runs(s, actions, ms) && Holds(s, c)
    requires s.clients[c].lease.deadline == s.now - elapsed + ms(c) && Punctual(actions, c, elapsed, ms(c))
    ensures KeptBy(s, actions, ms, c) && Holds(RunTo(s, actions, ms), c)
    decreases |actions|
  {
    if actions != [] {
      var a := actions[0];
      var s' := Step(s, a, ms);
      StepKeepsInv(s, a, ms);
      var elapsed' := if a.Tick? then elapsed + a.d else if a.RefreshRuns? && a.c == c then 0 else elapsed;
      PunctualRefreshKeepsLease(s', actions[1..], ms, c, elapsed');
    }
  }

  /** A client that acquires the key and then refreshes in time keeps it, in every run. */
  lemma AcquiredAndRefreshedIsKept(clients: nat, before: seq<Action>, c: nat, lost: bool, after: seq<Action>,
                                   ms: nat -> int)
    requires Runs(Start(clients), before, ms) && Enabled(RunTo(Start(clients), before, ms), LockRuns(c, lost))
    requires var s := RunTo(Start(clients), before, ms);
             && LockScript(s.store, s.now, c, ms(c)).1 == Number(1)
             && Runs(Step(s, LockRuns(c, lost), ms), after, ms)
    requires Punctual(after, c, 0, ms(c))
    ensures var s := Step(RunTo(Start(clients), before, ms), LockRuns(c, lost), ms);
            KeptBy(s, after, ms, c) && Holds(RunTo(s, after, ms), c)
  {
    RunKeepsInv(Start(clients), before, ms);
    var s := RunTo(Start(clients), before, ms);
    StepKeepsInv(s, LockRuns(c, lost), ms);
    PunctualRefreshKeepsLease(Step(s, LockRuns(c, lost), ms), after, ms, c, 0);
  }
}
