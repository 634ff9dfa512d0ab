/** Members, their status and the suspicion timers, as a value, and runs over it. */
module Suspicions {
  import opened Wrappers

  datatype Status = Up | Suspect | Down

  datatype Member = Member(addr: string, status: Status, lastSeen: int, metadata: Metadata)

  datatype View = View(members: map<string, Member>, timers: map<string, int>)

  datatype Op =
    | Join(id: string, addr: string)
    | Add(id: string, addr: string, metadata: Metadata)
    | Remove(id: string)
    | MarkSuspect(id: string)
    | MarkAlive(id: string)
    | MarkFailed(id: string)
    | Check

  datatype Event = Event(now: int, op: Op)

  type Metadata = Option<map<string, string>>

  function Merged(known: Metadata, update: Metadata): (r: Metadata)
  {
    if update.None? then known else if known.None? then update else Some(known.value + update.value)
  }

  predicate TimedOut(v: View, id: string, now: int, limit: int)
  {
    id in v.timers && now - v.timers[id] > limit
  }

  function StatusIn(v: View, id: string): (r: Option<Status>)
  {
    if id in v.members then Some(v.members[id].status) else None
  }

  /** Timed-out suspects go down and keep their timers; other timed-out timers are dropped. */
  function Checked(v: View, now: int, limit: int): (v': View)
  {
    View(map id | id in v.members ::
           if TimedOut(v, id, now, limit) && v.members[id].status == Suspect then v.members[id].(status := Down)
           else v.members[id],
         map id | id in v.timers && (!TimedOut(v, id, now, limit) || StatusIn(v, id) == Some(Suspect)) :: v.timers[id])
  }

  function Next(v: View, e: Event, limit: int): (v': View)
  {
    match e.op
    case Join(id, addr) => v.(members := v.members[id := Member(addr, Up, e.now, Some(map["self" := "true"]))])
    case Add(id, addr, metadata) =>
      var m := if id in v.members then Merged(v.members[id].metadata, metadata) else metadata;
      v.(members := v.members[id := Member(addr, Up, e.now, m)])
    case Remove(id) => if id !in v.members then v else View(v.members - {id}, v.timers - {id})
    case MarkSuspect(id) =>
      if StatusIn(v, id) != Some(Up) then v
      else View(v.members[id := v.members[id].(status := Suspect)], v.timers[id := e.now])
    case MarkAlive(id) =>
      if id !in v.members then v
      else View(v.members[id := v.members[id].(status := Up, lastSeen := e.now)], v.timers - {id})
    case MarkFailed(id) =>
      if id !in v.members then v else v.(members := v.members[id := v.members[id].(status := Down)])
    case Check => Checked(v, e.now, limit)
  }

  const Nobody := View(map[], map[])

  function RunTo(trace: seq<Event>, limit: int): (v: View)
  {
    if trace == [] then Nobody else Next(RunTo(trace[..|trace| - 1], limit), trace[|trace| - 1], limit)
  }

  function StatusAfter(trace: seq<Event>, limit: int, id: string): (r: Option<Status>)
  {
    StatusIn(RunTo(trace, limit), id)
  }

  /** Every suspect has a timer, and timers exist only for members. */
  ghost predicate Inv(v: View)
  {
    && (forall id :: StatusIn(v, id) == Some(Suspect) ==> id in v.timers)
    && (forall id :: id in v.timers ==> id in v.members)
  }

  lemma StepKeepsInv(v: View, e: Event, limit: int)
    requires Inv(v)
    ensures Inv(Next(v, e, limit))
  {
    var v' := Next(v, e, limit);
    forall id | StatusIn(v', id) == Some(Suspect)
      ensures id in v'.timers
    {
      assert StatusIn(v, id) == Some(Suspect) || e.op == MarkSuspect(id);
    }
  }

  lemma {:induction false} RunKeepsInv(trace: seq<Event>, limit: int)
    ensures Inv(RunTo(trace, limit))
  {
    if trace != [] {
      RunKeepsInv(trace[..|trace| - 1], limit);
      StepKeepsInv(RunTo(trace[..|trace| - 1], limit), trace[|trace| - 1], limit);
    }
  }

  /** A node becomes suspect only by being marked while up, and a suspect's timer is not restarted. */
  lemma OnlyMarkingSuspects(v: View, e: Event, limit: int, id: string)
    requires Inv(v) && StatusIn(Next(v, e, limit), id) == Some(Suspect)
    ensures if StatusIn(v, id) == Some(Suspect) then
              id in Next(v, e, limit).timers && Next(v, e, limit).timers[id] == v.timers[id]
            else e.op == MarkSuspect(id) && StatusIn(v, id) == Some(Up) && Next(v, e, limit).timers[id] == e.now
  {
    StepKeepsInv(v, e, limit);
  }

  /** From event i on the node was suspect without a break, event i having taken it out of Up. */
  ghost predicate SuspectSince(trace: seq<Event>, limit: int, id: string, i: nat)
  {
    && i < |trace| && trace[i].op == MarkSuspect(id) && StatusAfter(trace[..i], limit, id) == Some(Up)
    && (forall j :: i < j <= |trace| ==> StatusAfter(trace[..j], limit, id) == Some(Suspect))
  }

  /** In every run a suspect's timer holds the moment it last left Up, and it has been suspect ever since. */
  lemma {:induction false} TimerIsStartOfSuspicion(trace: seq<Event>, limit: int, id: string) returns (i: nat)
    requires StatusAfter(trace, limit, id) == Some(Suspect)
    ensures SuspectSince(trace, limit, id, i)
    ensures id in RunTo(trace, limit).timers && RunTo(trace, limit).timers[id] == trace[i].now
  {
    var before, e := trace[..|trace| - 1], trace[|trace| - 1];
    RunKeepsInv(before, limit);
    OnlyMarkingSuspects(RunTo(before, limit), e, limit, id);
    assert trace[..|trace|] == trace;
    if StatusAfter(before, limit, id) == Some(Suspect) {
      i := TimerIsStartOfSuspicion(before, limit, id);
      forall j | i < j <= |trace|
        ensures StatusAfter(trace[..j], limit, id) == Some(Suspect)
      {
        if j < |trace| {
          assert before[..j] == trace[..j];
        }
      }
      assert before[..i] == trace[..i];
    } else {
      i := |trace| - 1;
    }
  }

  /** A check takes a suspect down exactly if it has been suspect, without a break, for longer than the limit. */
  lemma DownByTimeoutIff(trace: seq<Event>, now: int, limit: int, id: string) returns (i: nat)
    requires StatusAfter(trace, limit, id) == Some(Suspect)
    ensures SuspectSince(trace, limit, id, i)
    ensures StatusIn(Next(RunTo(trace, limit), Event(now, Check), limit), id)
         == Some(if now - trace[i].now > limit then Down else Suspect)
  {
    i := TimerIsStartOfSuspicion(trace, limit, id);
  }

  /** What the reports do to the node they name. */
  lemma ReportsTakeEffect(v: View, now: int, limit: int, id: string, addr: string, metadata: Metadata)
    ensures StatusIn(Next(v, Event(now, Add(id, addr, metadata)), limit), id) == Some(Up)
    ensures id in v.members ==>
              && StatusIn(Next(v, Event(now, MarkAlive(id)), limit), id) == Some(Up)
              && id !in Next(v, Event(now, MarkAlive(id)), limit).timers
              && StatusIn(Next(v, Event(now, MarkFailed(id)), limit), id) == Some(Down)
    ensures StatusIn(v, id) == Some(Up) ==>
              && StatusIn(Next(v, Event(now, MarkSuspect(id)), limit), id) == Some(Suspect)
              && id in Next(v, Event(now, MarkSuspect(id)), limit).timers
              && Next(v, Event(now, MarkSuspect(id)), limit).timers[id] == now
  {
  }

  predicate Accuses(e: Event, id: string)
  {
    (e.op.MarkSuspect? || e.op.MarkFailed?) && e.op.id == id
  }

  function RunFrom(v: View, events: seq<Event>, limit: int): (v': View)
    decreases |events|
  {
    if events == [] then v else RunFrom(Next(v, events[0], limit), events[1..], limit)
  }

  /** A node that is up, or not a member, is never suspect or down again before it is reported, whatever timers,
      even forgotten ones, run out. */
  lemma {:induction false} UnaccusedStaysUp(v: View, events: seq<Event>, limit: int, id: string)
    requires StatusIn(v, id) in {Some(Up), None} && forall i :: 0 <= i < |events| ==> !Accuses(events[i], id)
    ensures StatusIn(RunFrom(v, events, limit), id) in {Some(Up), None}
    decreases |events|
  {
    if events != [] {
      UnaccusedStaysUp(Next(v, events[0], limit), events[1..], limit, id);
    }
  }

  /** So a suspect that is marked alive in time is not taken down by any later check before it is reported again. */
  lemma AliveInTimeIsSpared(v: View, now: int, events: seq<Event>, limit: int, id: string)
    requires StatusIn(v, id) == Some(Suspect) && forall i :: 0 <= i < |events| ==> !Accuses(events[i], id)
    ensures StatusIn(RunFrom(Next(v, Event(now, MarkAlive(id)), limit), events, limit), id) in {Some(Up), None}
  {
    UnaccusedStaysUp(Next(v, Event(now, MarkAlive(id)), limit), events, limit, id);
  }

  /** Nothing but a timeout or an explicit failure report takes a node down. */
  lemma OnlyTimeoutOrReportTakesDown(v: View, e: Event, limit: int, id: string)
    requires StatusIn(v, id) != Some(Down) && StatusIn(Next(v, e, limit), id) == Some(Down)
    ensures e.op == MarkFailed(id) || (e.op.Check? && StatusIn(v, id) == Some(Suspect) && TimedOut(v, id, e.now, limit))
  {
  }
}

/** The membership table of cache/cluster/membership.go. */
module Memberships {
  import opened Wrappers
  import opened Suspicions

  class Membership {
    const localID: string
    const localAddr: string
    const suspicionMult: int
    const probeInterval: int
    var members: map<string, Member>
    var suspectTime: map<string, int>

    constructor (localID: string, localAddr: string, suspicionMult: int, probeInterval: int)
      ensures this.localID == localID && this.localAddr == localAddr
      ensures this.suspicionMult == suspicionMult && this.probeInterval == probeInterval
      ensures State() == Nobody
    {
      this.localID, this.localAddr := localID, localAddr;
      this.suspicionMult, this.probeInterval := suspicionMult, probeInterval;
      members, suspectTime := map[], map[];
    }

    ghost function State(): (v: View)
      reads this
    {
      View(members, suspectTime)
    }

    ghost function Limit(): (r: int) { suspicionMult * probeInterval }

    method AddLocalNode(now: int)
      modifies this
      ensures State() == Next(old(State()), Event(now, Join(localID, localAddr)), Limit())
      ensures localID in members && members[localID].addr == localAddr && members[localID].status == Up
      ensures suspectTime == old(suspectTime) && members - {localID} == old(members) - {localID}
    {
      members := members[localID := Member(localAddr, Up, now, Some(map["self" := "true"]))];
    }

    /** A known node comes back up with a new address and merged metadata; its timer is left running. */
    method AddMember(id: string, addr: string, metadata: Metadata, now: int)
      modifies this
      ensures State() == Next(old(State()), Event(now, Add(id, addr, metadata)), Limit())
      ensures id in members && members[id].addr == addr && members[id].status == Up && members[id].lastSeen == now
      ensures metadata.Some? ==>
                && members[id].metadata.Some?
                && forall k :: k in metadata.value ==>
                     k in members[id].metadata.value && members[id].metadata.value[k] == metadata.value[k]
      ensures id in old(members) && old(members)[id].metadata.Some? ==>
                && members[id].metadata.Some?
                && forall k :: k in old(members)[id].metadata.value && (metadata.None? || k !in metadata.value) ==>
                     && k in members[id].metadata.value
                     && members[id].metadata.value[k] == old(members)[id].metadata.value[k]
      ensures suspectTime == old(suspectTime) && members - {id} == old(members) - {id}
    {
      if id in members {
        var existing := members[id];
        if existing.addr != addr {
          existing := existing.(addr := addr);
        }
        if metadata.Some? {
          var data := if existing.metadata.Some? then existing.metadata.value else map[];
          existing := existing.(metadata := Some(data + metadata.value));
          assert map[] + metadata.value == metadata.value;
        }
        members := members[id := existing.(status := Up, lastSeen := now)];
        return;
      }
      members := members[id := Member(addr, Up, now, metadata)];
    }

    method RemoveMember(id: string)
      modifies this
      ensures State() == Next(old(State()), Event(0, Remove(id)), Limit())
      ensures members == old(members) - {id}
      ensures id in old(members) ==> suspectTime == old(suspectTime) - {id}
    {
      if id !in members {
        return;
      }
      suspectTime := suspectTime - {id};
      members := members - {id};
    }

    method MarkSuspect(id: string, now: int)
      modifies this
      ensures State() == Next(old(State()), Event(now, Op.MarkSuspect(id)), Limit())
      ensures id in old(members) && old(members)[id].status == Up ==>
                && id in members && members[id] == old(members)[id].(status := Suspect)
                && suspectTime == old(suspectTime)[id := now]
      ensures members - {id} == old(members) - {id} && suspectTime - {id} == old(suspectTime) - {id}
    {
      if id !in members || members[id].status != Up {
        return;
      }
      members := members[id := members[id].(status := Suspect)];
      suspectTime := suspectTime[id := now];
    }

    method MarkAlive(id: string, now: int)
      modifies this
      ensures State() == Next(old(State()), Event(now, Op.MarkAlive(id)), Limit())
      ensures id in old(members) ==>
                && id in members && members[id] == old(members)[id].(status := Up, lastSeen := now)
                && id !in suspectTime
      ensures members - {id} == old(members) - {id} && suspectTime - {id} == old(suspectTime) - {id}
    {
      if id !in members {
        return;
      }
      members := members[id := members[id].(status := Up, lastSeen := now)];
      suspectTime := suspectTime - {id};
    }

    method MarkFailed(id: string)
      modifies this
      ensures State() == Next(old(State()), Event(0, Op.MarkFailed(id)), Limit())
      ensures id in old(members) ==> id in members && members[id] == old(members)[id].(status := Down)
      ensures members - {id} == old(members) - {id} && suspectTime == old(suspectTime)
    {
      if id !in members {
        return;
      }
      members := members[id := members[id].(status := Down)];
    }

    /** Visits every timer once, in any order. */
    method CheckSuspectedNodes(now: int)
      modifies this
      ensures State() == Next(old(State()), Event(now, Check), Limit())
      ensures members.Keys == old(members).Keys
      ensures forall id :: id in members ==>
                members[id] ==
                if old(members)[id].status == Suspect && id in old(suspectTime) &&
                   now - old(suspectTime)[id] > suspicionMult * probeInterval
                then old(members)[id].(status := Down) else old(members)[id]
      ensures forall id :: id in suspectTime <==>
                && id in old(suspectTime)
                && (now - old(suspectTime)[id] <= suspicionMult * probeInterval ||
                    (id in old(members) && old(members)[id].status == Suspect))
    {
      hide PartlyChecked;
      ghost var v := State();
      var pending := suspectTime.Keys;
      CheckStarts(v, now, Limit());
      while pending != {}
        invariant PartlyChecked(v, pending, State(), now, Limit())
      {
        var id :| id in pending;
        CheckOne(v, pending, State(), id, now, Limit());
        pending := pending - {id};
        if now - suspectTime[id] > suspicionMult * probeInterval {
          if id !in members || members[id].status != Suspect {
            suspectTime := suspectTime - {id};
          } else {
            members := members[id := members[id].(status := Down)];
          }
        }
      }
      CheckEnds(v, State(), now, Limit());
    }
  }

  /** The table with the timers in pending not yet visited. */
  ghost predicate PartlyChecked(v: View, pending: set<string>, u: View, now: int, limit: int)
  {
    var w := Checked(v, now, limit);
    && pending <= u.timers.Keys <= v.timers.Keys && u.members.Keys == v.members.Keys
    && (forall id :: id in u.timers ==> u.timers[id] == v.timers[id])
    && (forall id :: id in u.members ==> u.members[id] == if id in pending then v.members[id] else w.members[id])
    && (forall id :: id in v.timers && id !in pending ==> (id in u.timers <==> id in w.timers))
  }

  /** What the visit of one timer leaves. */
  ghost function Visited(u: View, id: string, now: int, limit: int): (u': View)
    requires id in u.timers
  {
    if now - u.timers[id] <= limit then u
    else if id !in u.members || u.members[id].status != Suspect then u.(timers := u.timers - {id})
    else u.(members := u.members[id := u.members[id].(status := Down)])
  }

  lemma CheckStarts(v: View, now: int, limit: int)
    ensures PartlyChecked(v, v.timers.Keys, v, now, limit)
  {
  }

  lemma CheckOne(v: View, pending: set<string>, u: View, id: string, now: int, limit: int)
    requires PartlyChecked(v, pending, u, now, limit) && id in pending
    ensures id in u.timers && PartlyChecked(v, pending - {id}, Visited(u, id, now, limit), now, limit)
  {
  }

  lemma CheckEnds(v: View, u: View, now: int, limit: int)
    requires PartlyChecked(v, {}, u, now, limit)
    ensures u == Checked(v, now, limit)
  {
    var w := Checked(v, now, limit);
    assert u.members == w.members;
    assert u.timers == w.timers;
  }
}
