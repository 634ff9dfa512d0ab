/** One node's reactions in cache/cluster/election.go, as functions of its state. */
module ElectionSteps {

  datatype Role = Follower | Candidate | Leader

  /** Term and index of the last log entry. */
  datatype Log = Log(term: nat, index: nat)

  datatype Node = Node(term: nat, role: Role, votedFor: string, votes: set<string>, leader: string, log: Log)

  datatype VoteRequest = VoteRequest(term: nat, candidate: string, log: Log)
  datatype VoteResponse = VoteResponse(term: nat, granted: bool, votedFor: string)
  datatype Heartbeat = Heartbeat(term: nat, leader: string)

  predicate UpToDate(a: Log, b: Log)
  {
    a.term > b.term || (a.term == b.term && a.index >= b.index)
  }

  function BecomeFollower(n: Node, leaderID: string): (n': Node)
  {
    if n.role == Follower && n.leader == leaderID then n else n.(role := Follower, leader := leaderID)
  }

  function StartElection(n: Node, self: string): (n': Node)
  {
    n.(term := n.term + 1, role := Candidate, votedFor := self, votes := {self})
  }

  function OnVoteResponse(n: Node, self: string, voter: string, resp: VoteResponse, memberCount: nat): (n': Node)
  {
    if n.role != Candidate || resp.term != n.term then n
    else
      var n' := if resp.granted then n.(votes := n.votes + {voter}) else n;
      if |n'.votes| >= memberCount / 2 + 1 then n'.(role := Leader, leader := self) else n'
  }

  /** The node after it has noticed the term of a vote request. */
  function Advanced(n: Node, req: VoteRequest): (n': Node)
  {
    if req.term > n.term then
      var n' := n.(term := req.term, votedFor := "");
      if n'.role != Follower then BecomeFollower(n', "") else n'
    else n
  }

  predicate Grants(n: Node, req: VoteRequest)
  {
    && req.term >= n.term
    && (Advanced(n, req).votedFor == "" || Advanced(n, req).votedFor == req.candidate)
    && UpToDate(req.log, n.log)
  }

  function OnVoteRequest(n: Node, req: VoteRequest): (r: (Node, VoteResponse))
  {
    var n' := Advanced(n, req);
    if Grants(n, req) then (n'.(votedFor := req.candidate), VoteResponse(n'.term, true, req.candidate))
    else (n', VoteResponse(n'.term, false, n'.votedFor))
  }

  /** The second result tells whether the heartbeat was accepted. */
  function OnHeartbeat(n: Node, hb: Heartbeat): (r: (Node, bool))
  {
    if hb.term < n.term then (n, false)
    else (BecomeFollower(n.(term := hb.term), hb.leader), true)
  }
}

/** The election manager with its fields updated in place. */
module ElectionManagers {
  import opened ElectionSteps

  class ElectionManager {
    const nodeID: string
    var currentTerm: nat
    var role: Role
    var votedFor: string
    var votesReceived: set<string>
    var currentLeader: string
    var lastLog: Log

    ghost function State(): (n: Node)
      reads this
    {
      Node(currentTerm, role, votedFor, votesReceived, currentLeader, lastLog)
    }

    constructor (nodeID: string)
      ensures this.nodeID == nodeID && State() == Node(0, Follower, "", {}, "", Log(0, 0))
    {
      this.nodeID := nodeID;
      currentTerm, role, votedFor, votesReceived, currentLeader := 0, Follower, "", {}, "";
      lastLog := Log(0, 0);
    }

    method StartElection() returns (req: VoteRequest)
      modifies this
      ensures State() == ElectionSteps.StartElection(old(State()), nodeID)
      ensures currentTerm == old(currentTerm) + 1 && role == Candidate && votedFor == nodeID
      ensures votesReceived == {nodeID} && currentLeader == old(currentLeader) && lastLog == old(lastLog)
      ensures req == VoteRequest(currentTerm, nodeID, lastLog)
    {
      currentTerm := currentTerm + 1;
      role := Candidate;
      votedFor := nodeID;
      votesReceived := {};
      votesReceived := votesReceived + {nodeID};
      req := VoteRequest(currentTerm, nodeID, lastLog);
    }

    method HandleVoteResponse(voterID: string, resp: VoteResponse, memberCount: nat)
      modifies this
      ensures State() == OnVoteResponse(old(State()), nodeID, voterID, resp, memberCount)
      ensures currentTerm == old(currentTerm) && votedFor == old(votedFor) && lastLog == old(lastLog)
      ensures votesReceived == old(votesReceived) +
              (if old(role) == Candidate && resp.term == currentTerm && resp.granted then {voterID} else {})
      ensures if old(role) == Candidate && resp.term == currentTerm && 2 * |votesReceived| > memberCount
              then role == Leader && currentLeader == nodeID
              else role == old(role) && currentLeader == old(currentLeader)
    {
      if role != Candidate || resp.term != currentTerm {
        return;
      }
      if resp.granted {
        votesReceived := votesReceived + {voterID};
      }
      var votesNeeded := memberCount / 2 + 1;
      if |votesReceived| >= votesNeeded {
        role := Leader;
        currentLeader := nodeID;
      }
    }

    method BecomeFollower(leaderID: string)
      modifies this`role, this`currentLeader
      ensures State() == ElectionSteps.BecomeFollower(old(State()), leaderID)
      ensures role == Follower && currentLeader == leaderID
    {
      if role == Follower && currentLeader == leaderID {
        return;
      }
      role := Follower;
      currentLeader := leaderID;
    }

    method HandleVoteRequest(req: VoteRequest) returns (resp: VoteResponse)
      modifies this
      ensures (State(), resp) == OnVoteRequest(old(State()), req)
      ensures resp.granted <==>
              && req.term >= old(currentTerm)
              && (req.term > old(currentTerm) || old(votedFor) == "" || old(votedFor) == req.candidate)
              && (req.log.term > lastLog.term || (req.log.term == lastLog.term && req.log.index >= lastLog.index))
      ensures currentTerm == (if req.term > old(currentTerm) then req.term else old(currentTerm))
      ensures votedFor == if resp.granted then req.candidate
                          else if req.term > old(currentTerm) then "" else old(votedFor)
      ensures req.term > old(currentTerm) && old(role) != Follower ==> role == Follower && currentLeader == ""
      ensures req.term <= old(currentTerm) || old(role) == Follower ==>
                role == old(role) && currentLeader == old(currentLeader)
      ensures resp.term == currentTerm && resp.votedFor == votedFor
      ensures votesReceived == old(votesReceived) && lastLog == old(lastLog)
    {
      if req.term < currentTerm {
        return VoteResponse(currentTerm, false, votedFor);
      }
      if req.term > currentTerm {
        currentTerm := req.term;
        votedFor := "";
        if role != Follower {
          BecomeFollower("");
        }
      }
      if votedFor != "" && votedFor != req.candidate {
        return VoteResponse(currentTerm, false, votedFor);
      }
      if !UpToDate(req.log, lastLog) {
        return VoteResponse(currentTerm, false, votedFor);
      }
      votedFor := req.candidate;
      return VoteResponse(currentTerm, true, req.candidate);
    }

    method HandleHeartbeat(hb: Heartbeat) returns (accepted: bool)
      modifies this
      ensures (State(), accepted) == OnHeartbeat(old(State()), hb)
      ensures accepted <==> hb.term >= old(currentTerm)
      ensures accepted ==> currentTerm == hb.term && role == Follower && currentLeader == hb.leader
      ensures votedFor == old(votedFor) && votesReceived == old(votesReceived) && lastLog == old(lastLog)
      ensures !accepted ==> currentTerm == old(currentTerm) && role == old(role) && currentLeader == old(currentLeader)
    {
      if hb.term < currentTerm {
        return false;
      }
      if hb.term > currentTerm {
        currentTerm := hb.term;
        BecomeFollower(hb.leader);
        return true;
      }
      if currentLeader != hb.leader {
        BecomeFollower(hb.leader);
      } else if role != Follower {
        BecomeFollower(hb.leader);
      }
      return true;
    }

    method SetLogInfo(lastIndex: nat, lastTerm: nat)
      modifies this`lastLog
      ensures State() == old(State()).(log := Log(lastTerm, lastIndex))
    {
      lastLog := Log(lastTerm, lastIndex);
    }
  }
}

/**
 The cluster: the nodes' states and every message ever sent. A message may be
 delivered at any later moment, any number of times, in any order, or never.
 The last three fields record history: the votes cast with the voter's log at
 that moment, the log of each candidacy, and the elections won with their quorum.
 */
module ElectionProtocol {
  import opened Sets
  import opened ElectionSteps

  datatype Reply = Reply(voter: string, to: string, resp: VoteResponse)
  datatype Ballot = Ballot(voter: string, term: nat, candidate: string, log: Log)
  datatype Win = Win(term: nat, id: string, quorum: set<string>)

  datatype Cluster = Cluster(
    nodes: map<string, Node>,
    requests: set<VoteRequest>,
    replies: set<Reply>,
    beats: set<Heartbeat>,
    ballots: set<Ballot>,
    candidacies: map<(string, nat), Log>,
    wins: set<Win>)

  datatype Action =
    | Timeout(id: string)
    | DeliverRequest(id: string, req: VoteRequest)
    | DeliverReply(reply: Reply)
    | Beat(id: string)
    | DeliverBeat(id: string, hb: Heartbeat)
    | ChangeLog(id: string, log: Log)

  ghost predicate Init(c: Cluster, members: set<string>)
  {
    && c.nodes.Keys == members
    && (forall i :: i in members ==> c.nodes[i].term == 0 && c.nodes[i].role == Follower)
    && c.requests == {} && c.replies == {} && c.beats == {}
    && c.ballots == {} && c.candidacies == map[] && c.wins == {}
  }

  function Step(c: Cluster, a: Action): (d: Cluster)
  {
    match a
    case Timeout(i) => if i in c.nodes then OnTimeout(c, i) else c
    case DeliverRequest(i, req) =>
      if i in c.nodes && req in c.requests && req.candidate != i then OnRequest(c, i, req) else c
    case DeliverReply(reply) =>
      if reply.to in c.nodes && reply in c.replies then OnReply(c, reply) else c
    case Beat(i) =>
      if i in c.nodes && c.nodes[i].role == Leader then c.(beats := c.beats + {Heartbeat(c.nodes[i].term, i)}) else c
    case DeliverBeat(i, hb) =>
      if i in c.nodes && hb in c.beats && hb.leader != i then
        c.(nodes := c.nodes[i := OnHeartbeat(c.nodes[i], hb).0])
      else c
    case ChangeLog(i, log) =>
      if i in c.nodes then c.(nodes := c.nodes[i := c.nodes[i].(log := log)]) else c
  }

  function OnTimeout(c: Cluster, i: string): (d: Cluster)
    requires i in c.nodes
  {
    var n := StartElection(c.nodes[i], i);
    c.(nodes := c.nodes[i := n],
       requests := c.requests + {VoteRequest(n.term, i, n.log)},
       ballots := c.ballots + {Ballot(i, n.term, i, n.log)},
       candidacies := c.candidacies[(i, n.term) := n.log])
  }

  function OnRequest(c: Cluster, i: string, req: VoteRequest): (d: Cluster)
    requires i in c.nodes
  {
    var (n, resp) := OnVoteRequest(c.nodes[i], req);
    c.(nodes := c.nodes[i := n],
       replies := c.replies + {Reply(i, req.candidate, resp)},
       ballots := if resp.granted then c.ballots + {Ballot(i, resp.term, req.candidate, n.log)} else c.ballots)
  }

  function OnReply(c: Cluster, reply: Reply): (d: Cluster)
    requires reply.to in c.nodes
  {
    var i := reply.to;
    var n := OnVoteResponse(c.nodes[i], i, reply.voter, reply.resp, |c.nodes|);
    c.(nodes := c.nodes[i := n],
       wins := if c.nodes[i].role != Leader && n.role == Leader then c.wins + {Win(n.term, i, n.votes)} else c.wins)
  }

  function Run(c: Cluster, actions: seq<Action>): (d: Cluster)
  {
    if actions == [] then c else Step(Run(c, actions[..|actions| - 1]), actions[|actions| - 1])
  }

  // ---------- the invariant ----------

  ghost predicate Voted(c: Cluster, voter: string, term: nat, candidate: string)
  {
    exists b :: b in c.ballots && b.voter == voter && b.term == term && b.candidate == candidate
  }

  /** A cast vote binds the voter as long as it stays in that term. */
  ghost predicate VotesBind(c: Cluster)
  {
    forall b :: b in c.ballots ==>
      && b.voter in c.nodes && b.candidate in c.nodes
      && (c.nodes[b.voter].term > b.term ||
          (c.nodes[b.voter].term == b.term && c.nodes[b.voter].votedFor == b.candidate))
  }

  /** At most one vote for each voter and term. */
  ghost predicate OneVote(c: Cluster)
  {
    forall a, b :: a in c.ballots && b in c.ballots && a.voter == b.voter && a.term == b.term ==>
                     a.candidate == b.candidate
  }

  /** Messages speak the truth about votes and candidacies. */
  ghost predicate Honest(c: Cluster)
  {
    && (forall m :: m in c.requests ==>
          && m.candidate in c.nodes && (m.candidate, m.term) in c.candidacies
          && c.candidacies[(m.candidate, m.term)] == m.log)
    && (forall m :: m in c.replies ==>
          m.voter in c.nodes && (m.resp.granted ==> Voted(c, m.voter, m.resp.term, m.to)))
  }

  /** The counted votes of a candidate belong to its current term. */
  ghost predicate Counted(c: Cluster)
  {
    forall i :: i in c.nodes && c.nodes[i].role == Candidate ==>
      forall v :: v in c.nodes[i].votes ==> v in c.nodes && Voted(c, v, c.nodes[i].term, i)
  }

  /** Each voter's log was no newer than the log its candidate stood with. */
  ghost predicate Informed(c: Cluster)
  {
    && (forall k :: k in c.candidacies ==> k.0 in c.nodes && k.1 <= c.nodes[k.0].term)
    && (forall b :: b in c.ballots ==>
          (b.candidate, b.term) in c.candidacies && UpToDate(c.candidacies[(b.candidate, b.term)], b.log))
  }

  ghost predicate Won(c: Cluster, term: nat, id: string)
  {
    exists w :: w in c.wins && w.term == term && w.id == id
  }

  /** Every win rests on a majority of votes; leaders and heartbeats rest on a win. */
  ghost predicate Earned(c: Cluster)
  {
    && (forall w :: w in c.wins ==>
          && w.quorum <= c.nodes.Keys && |w.quorum| >= |c.nodes| / 2 + 1
          && (forall v :: v in w.quorum ==> Voted(c, v, w.term, w.id)))
    && (forall i :: i in c.nodes && c.nodes[i].role == Leader ==> Won(c, c.nodes[i].term, i))
    && (forall m :: m in c.beats ==> Won(c, m.term, m.leader))
  }

  ghost predicate Inv(c: Cluster)
  {
    "" !in c.nodes && VotesBind(c) && OneVote(c) && Honest(c) && Counted(c) && Informed(c) && Earned(c)
  }

  // ---------- every step keeps it ----------

  /** Histories only grow. */
  ghost predicate Grows(c: Cluster, d: Cluster)
  {
    c.nodes.Keys == d.nodes.Keys && c.ballots <= d.ballots && c.wins <= d.wins
  }

  lemma GrowingKeepsFacts(c: Cluster, d: Cluster)
    requires Grows(c, d)
    ensures forall v, t, i :: Voted(c, v, t, i) ==> Voted(d, v, t, i)
    ensures forall t, i :: Won(c, t, i) ==> Won(d, t, i)
  {
  }

  lemma TimeoutVotes(c: Cluster, i: string)
    requires i in c.nodes && VotesBind(c) && OneVote(c) && Honest(c) && Informed(c)
    ensures var d := OnTimeout(c, i); VotesBind(d) && OneVote(d) && Honest(d) && Informed(d)
  {
    var d := OnTimeout(c, i);
    GrowingKeepsFacts(c, d);
    hide Voted;
    assert (i, d.nodes[i].term) !in c.candidacies;
  }

  lemma TimeoutCounts(c: Cluster, i: string)
    requires i in c.nodes && Counted(c) && Earned(c)
    ensures var d := OnTimeout(c, i); Counted(d) && Earned(d)
  {
    var d := OnTimeout(c, i);
    GrowingKeepsFacts(c, d);
    var t := d.nodes[i].term;
    assert Ballot(i, t, i, d.nodes[i].log) in d.ballots;
    assert Voted(d, i, t, i);
  }

  lemma RequestVotes(c: Cluster, i: string, req: VoteRequest)
    requires "" !in c.nodes && i in c.nodes && req in c.requests && req.candidate != i
    requires VotesBind(c) && OneVote(c) && Honest(c) && Informed(c)
    ensures var d := OnRequest(c, i, req); VotesBind(d) && OneVote(d) && Honest(d) && Informed(d)
  {
    var d := OnRequest(c, i, req);
    GrowingKeepsFacts(c, d);
    var (n, resp) := OnVoteRequest(c.nodes[i], req);
    if resp.granted {
      assert Ballot(i, resp.term, req.candidate, n.log) in d.ballots;
      assert Voted(d, i, resp.term, req.candidate);
    }
    hide Voted;
    assert VotesBind(d) && OneVote(d);
  }

  lemma RequestCounts(c: Cluster, i: string, req: VoteRequest)
    requires i in c.nodes && Counted(c) && Earned(c)
    ensures var d := OnRequest(c, i, req); Counted(d) && Earned(d)
  {
    hide Counted, Earned, OnRequest;
    RequestCounted(c, i, req);
    RequestEarned(c, i, req);
  }

  /** A vote request makes a node a follower or leaves its role, term and votes alone. */
  lemma RequestKeepsRole(n: Node, req: VoteRequest)
    ensures var n' := OnVoteRequest(n, req).0;
            n'.role == Follower || (n'.role == n.role && n'.term == n.term && n'.votes == n.votes)
  {
  }

  lemma RequestCounted(c: Cluster, i: string, req: VoteRequest)
    requires i in c.nodes && Counted(c)
    ensures Counted(OnRequest(c, i, req))
  {
    hide Voted, OnVoteRequest;
    GrowingKeepsFacts(c, OnRequest(c, i, req));
    RequestKeepsRole(c.nodes[i], req);
  }

  lemma RequestEarned(c: Cluster, i: string, req: VoteRequest)
    requires i in c.nodes && Earned(c)
    ensures Earned(OnRequest(c, i, req))
  {
    hide Voted, Won, OnVoteRequest;
    GrowingKeepsFacts(c, OnRequest(c, i, req));
    RequestKeepsRole(c.nodes[i], req);
  }

  lemma ReplyVotes(c: Cluster, reply: Reply)
    requires reply.to in c.nodes && VotesBind(c) && OneVote(c) && Honest(c) && Informed(c)
    ensures var d := OnReply(c, reply); VotesBind(d) && OneVote(d) && Honest(d) && Informed(d)
  {
    GrowingKeepsFacts(c, OnReply(c, reply));
    hide Voted;
  }

  /** A reply is counted only in the term it was given for. */
  lemma ReplyCounts(c: Cluster, reply: Reply)
    requires reply.to in c.nodes && reply in c.replies && Honest(c) && Counted(c)
    ensures Counted(OnReply(c, reply))
    ensures var n := OnReply(c, reply).nodes[reply.to];
            c.nodes[reply.to].role == Candidate ==>
              forall v :: v in n.votes ==> v in c.nodes && Voted(c, v, n.term, reply.to)
  {
    GrowingKeepsFacts(c, OnReply(c, reply));
    hide Voted;
  }

  /** A majority of counted votes makes a win. */
  lemma ReplyEarns(c: Cluster, reply: Reply)
    requires reply.to in c.nodes && Earned(c)
    requires var n := OnReply(c, reply).nodes[reply.to];
             c.nodes[reply.to].role == Candidate ==>
               forall v :: v in n.votes ==> v in c.nodes && Voted(c, v, n.term, reply.to)
    ensures Earned(OnReply(c, reply))
  {
    var d := OnReply(c, reply);
    GrowingKeepsFacts(c, d);
    var i := reply.to;
    var n := d.nodes[i];
    if c.nodes[i].role != Leader && n.role == Leader {
      assert Win(n.term, i, n.votes) in d.wins;
      assert Won(d, n.term, i);
    }
    hide Voted, Won;
    assert d.nodes.Keys == c.nodes.Keys && |d.nodes| == |c.nodes|;
  }

  /** A change of one node that casts, counts and wins nothing. */
  ghost predicate Quiet(n: Node, n': Node)
  {
    && n'.term >= n.term
    && (n'.term == n.term ==> n'.votedFor == n.votedFor)
    && (n'.role == Follower || (n'.role == n.role && n'.term == n.term && n'.votes == n.votes))
  }

  lemma QuietVotes(c: Cluster, i: string, n: Node)
    requires i in c.nodes && Quiet(c.nodes[i], n) && VotesBind(c) && OneVote(c) && Honest(c) && Informed(c)
    ensures var d := c.(nodes := c.nodes[i := n]); VotesBind(d) && OneVote(d) && Honest(d) && Informed(d)
  {
    GrowingKeepsFacts(c, c.(nodes := c.nodes[i := n]));
    hide Voted;
  }

  lemma QuietCounts(c: Cluster, i: string, n: Node)
    requires i in c.nodes && Quiet(c.nodes[i], n) && Counted(c) && Earned(c)
    ensures var d := c.(nodes := c.nodes[i := n]); Counted(d) && Earned(d)
  {
    hide Quiet, Counted, Earned;
    QuietCounted(c, i, n);
    QuietEarned(c, i, n);
  }

  lemma QuietCounted(c: Cluster, i: string, n: Node)
    requires i in c.nodes && Quiet(c.nodes[i], n) && Counted(c)
    ensures Counted(c.(nodes := c.nodes[i := n]))
  {
    hide Voted;
    GrowingKeepsFacts(c, c.(nodes := c.nodes[i := n]));
  }

  lemma QuietEarned(c: Cluster, i: string, n: Node)
    requires i in c.nodes && Quiet(c.nodes[i], n) && Earned(c)
    ensures Earned(c.(nodes := c.nodes[i := n]))
  {
    hide Voted, Won;
    var d := c.(nodes := c.nodes[i := n]);
    GrowingKeepsFacts(c, d);
    assert d.nodes.Keys == c.nodes.Keys && |d.nodes| == |c.nodes|;
  }

  lemma BeatVotes(c: Cluster, beats: set<Heartbeat>)
    requires VotesBind(c) && OneVote(c) && Honest(c) && Informed(c) && Counted(c)
    ensures var d := c.(beats := beats); VotesBind(d) && OneVote(d) && Honest(d) && Informed(d) && Counted(d)
  {
    GrowingKeepsFacts(c, c.(beats := beats));
    hide Voted;
  }

  lemma BeatEarned(c: Cluster, i: string)
    requires Earned(c) && i in c.nodes && c.nodes[i].role == Leader
    ensures Earned(c.(beats := c.beats + {Heartbeat(c.nodes[i].term, i)}))
  {
    GrowingKeepsFacts(c, c.(beats := c.beats + {Heartbeat(c.nodes[i].term, i)}));
    hide Voted, Won;
  }

  lemma StepKeepsInv(c: Cluster, a: Action)
    requires Inv(c)
    ensures Inv(Step(c, a)) && Step(c, a).nodes.Keys == c.nodes.Keys
  {
    hide VotesBind, OneVote, Honest, Counted, Informed, Earned;
    match a
    case Timeout(i) =>
      if i in c.nodes {
        TimeoutVotes(c, i);
        TimeoutCounts(c, i);
      }
    case DeliverRequest(i, req) =>
      if i in c.nodes && req in c.requests && req.candidate != i {
        RequestVotes(c, i, req);
        RequestCounts(c, i, req);
      }
    case DeliverReply(reply) =>
      if reply.to in c.nodes && reply in c.replies {
        ReplyVotes(c, reply);
        ReplyCounts(c, reply);
        ReplyEarns(c, reply);
      }
    case Beat(i) =>
      if i in c.nodes && c.nodes[i].role == Leader {
        BeatVotes(c, c.beats + {Heartbeat(c.nodes[i].term, i)});
        BeatEarned(c, i);
      }
    case DeliverBeat(i, hb) =>
      if i in c.nodes && hb in c.beats && hb.leader != i {
        QuietVotes(c, i, OnHeartbeat(c.nodes[i], hb).0);
        QuietCounts(c, i, OnHeartbeat(c.nodes[i], hb).0);
      }
    case ChangeLog(i, log) =>
      if i in c.nodes {
        QuietVotes(c, i, c.nodes[i].(log := log));
        QuietCounts(c, i, c.nodes[i].(log := log));
      }
  }

  lemma {:induction false} RunKeepsInv(c: Cluster, members: set<string>, actions: seq<Action>)
    requires Init(c, members) && "" !in members
    ensures Inv(Run(c, actions)) && Run(c, actions).nodes.Keys == members
  {
    if actions != [] {
      RunKeepsInv(c, members, actions[..|actions| - 1]);
      StepKeepsInv(Run(c, actions[..|actions| - 1]), actions[|actions| - 1]);
    }
  }

  // ---------- safety over all runs ----------

  lemma MajoritiesMeet(a: set<string>, b: set<string>, members: set<string>)
    requires a <= members && b <= members
    requires |a| >= |members| / 2 + 1 && |b| >= |members| / 2 + 1
    ensures exists v :: v in a && v in b
  {
    if a * b == {} {
      UnionSize(a, b);
      SubsetSize(a + b, members);
    } else {
      var v :| v in a * b;
      assert v in a && v in b;
    }
  }

  lemma UnionSize(a: set<string>, b: set<string>)
    requires a * b == {}
    ensures |a + b| == |a| + |b|
  {
  }

  lemma WinsAgree(c: Cluster, v: Win, w: Win)
    requires Inv(c) && v in c.wins && w in c.wins && v.term == w.term
    ensures v.id == w.id
  {
    assert |c.nodes.Keys| == |c.nodes|;
    MajoritiesMeet(v.quorum, w.quorum, c.nodes.Keys);
    var m :| m in v.quorum && m in w.quorum;
    assert Voted(c, m, v.term, v.id) && Voted(c, m, w.term, w.id);
  }

  /** Election safety: no run elects two different leaders in one term. */
  lemma ElectionSafety(c: Cluster, members: set<string>, actions: seq<Action>, v: Win, w: Win)
    requires Init(c, members) && "" !in members
    requires v in Run(c, actions).wins && w in Run(c, actions).wins && v.term == w.term
    ensures v.id == w.id
  {
    RunKeepsInv(c, members, actions);
    WinsAgree(Run(c, actions), v, w);
  }

  /** So two nodes that lead in the same term at any moment of a run are one node. */
  lemma OneLeaderAtATime(c: Cluster, members: set<string>, actions: seq<Action>, a: string, b: string)
    requires Init(c, members) && "" !in members
    requires var d := Run(c, actions);
             && a in d.nodes && b in d.nodes && d.nodes[a].role == Leader && d.nodes[b].role == Leader
             && d.nodes[a].term == d.nodes[b].term
    ensures a == b
  {
    var d := Run(c, actions);
    RunKeepsInv(c, members, actions);
    assert Won(d, d.nodes[a].term, a) && Won(d, d.nodes[b].term, b);
    var v :| v in d.wins && v.term == d.nodes[a].term && v.id == a;
    var w :| w in d.wins && w.term == d.nodes[b].term && w.id == b;
    WinsAgree(d, v, w);
  }

  /** A voter votes for one candidate per term in every run. */
  lemma VoteOncePerTerm(c: Cluster, members: set<string>, actions: seq<Action>, a: Ballot, b: Ballot)
    requires Init(c, members) && "" !in members
    requires a in Run(c, actions).ballots && b in Run(c, actions).ballots && a.voter == b.voter && a.term == b.term
    ensures a.candidate == b.candidate
  {
    RunKeepsInv(c, members, actions);
  }

  /** Whoever wins stood with a log at least as new as that of each of a majority when it voted. */
  lemma WinnerLogIsNewest(c: Cluster, members: set<string>, actions: seq<Action>, w: Win, m: string)
    requires Init(c, members) && "" !in members && w in Run(c, actions).wins && m in w.quorum
    ensures var d := Run(c, actions);
            && w.quorum <= members && |w.quorum| >= |members| / 2 + 1
            && (w.id, w.term) in d.candidacies
            && exists b :: && b in d.ballots && b.voter == m && b.term == w.term && b.candidate == w.id
                           && UpToDate(d.candidacies[(w.id, w.term)], b.log)
  {
    var d := Run(c, actions);
    RunKeepsInv(c, members, actions);
    assert |d.nodes| == |d.nodes.Keys|;
    assert Voted(d, m, w.term, w.id);
  }

  lemma OnlyOwnHeartbeats(c: Cluster, i: string, hb: Heartbeat)
    requires Inv(c) && i in c.nodes && c.nodes[i].role == Leader && hb in c.beats && hb.term == c.nodes[i].term
    ensures hb.leader == i
  {
    hide VotesBind, OneVote, Honest, Counted, Informed;
    assert Won(c, hb.term, hb.leader) && Won(c, hb.term, i);
    var v :| v in c.wins && v.term == hb.term && v.id == hb.leader;
    var w :| w in c.wins && w.term == hb.term && w.id == i;
    WinsAgree(c, v, w);
  }

  /** A leader that receives a heartbeat of its own term stays leader: there is none to receive. */
  lemma OwnTermHeartbeatNeverDemotes(c: Cluster, members: set<string>, actions: seq<Action>, i: string, hb: Heartbeat)
    requires Init(c, members) && "" !in members && i in Run(c, actions).nodes
    requires Run(c, actions).nodes[i].role == Leader && hb.term == Run(c, actions).nodes[i].term
    ensures Step(Run(c, actions), DeliverBeat(i, hb)) == Run(c, actions)
  {
    hide Inv, Run, Init;
    var d := Run(c, actions);
    RunKeepsInv(c, members, actions);
    if hb in d.beats {
      OnlyOwnHeartbeats(d, i, hb);
    }
  }

  /** A node that receives a heartbeat of its own or a later term follows the one winner of that term. */
  lemma HeartbeatLeadsToWinner(c: Cluster, members: set<string>, actions: seq<Action>, i: string, hb: Heartbeat)
    requires Init(c, members) && "" !in members
    requires var d := Run(c, actions);
             i in d.nodes && hb in d.beats && hb.leader != i && hb.term >= d.nodes[i].term
    ensures var d := Run(c, actions);
            var n := Step(d, DeliverBeat(i, hb)).nodes[i];
            && n.term == hb.term && n.role == Follower && n.leader == hb.leader && n.votedFor == d.nodes[i].votedFor
            && Won(d, hb.term, n.leader)
            && forall w :: w in d.wins && w.term == hb.term ==> w.id == n.leader
  {
    hide Run, Init, VotesBind, OneVote, Honest, Counted, Informed;
    var d := Run(c, actions);
    RunKeepsInv(c, members, actions);
    var v :| v in d.wins && v.term == hb.term && v.id == hb.leader;
    forall w | w in d.wins && w.term == hb.term
      ensures w.id == hb.leader
    {
      WinsAgree(d, v, w);
    }
  }

  lemma Stands(c: Cluster, members: set<string>, a: string)
    requires Init(c, members) && a in members
    ensures var d := Step(c, Timeout(a));
            && d.nodes.Keys == members
            && d.nodes[a].term == 1 && d.nodes[a].role == Candidate && d.nodes[a].votes == {a}
            && VoteRequest(1, a, c.nodes[a].log) in d.requests && d.wins == {}
            && (forall b :: b in members && b != a ==> d.nodes[b] == c.nodes[b])
  {
  }

  lemma VotesYes(c: Cluster, a: string, b: string, log: Log)
    requires a in c.nodes && b in c.nodes && a != b && VoteRequest(1, a, log) in c.requests
    requires c.nodes[b].term == 0 && c.nodes[b].role == Follower && c.nodes[b].votedFor == "" && c.nodes[b].log == log
    ensures var d := Step(c, DeliverRequest(b, VoteRequest(1, a, log)));
            && d.nodes.Keys == c.nodes.Keys && d.nodes[a] == c.nodes[a] && d.wins == c.wins
            && Reply(b, a, VoteResponse(1, true, a)) in d.replies
  {
  }

  /** Elections can be won: with up to three members of equal standing, one timeout and one vote suffice. */
  lemma OneVoteElects(c: Cluster, members: set<string>, a: string, b: string)
    requires Init(c, members) && 2 <= |members| <= 3 && a in members && b in members && a != b
    requires c.nodes[b].votedFor == "" && c.nodes[a].log == c.nodes[b].log
    ensures var req := VoteRequest(1, a, c.nodes[a].log);
            var yes := Reply(b, a, VoteResponse(1, true, a));
            var d := Step(Step(Step(c, Timeout(a)), DeliverRequest(b, req)), DeliverReply(yes));
            d.nodes[a].role == Leader && d.nodes[a].leader == a && d.wins == {Win(1, a, {a, b})}
  {
    var log := c.nodes[a].log;
    var c1 := Step(c, Timeout(a));
    var c2 := Step(c1, DeliverRequest(b, VoteRequest(1, a, log)));
    Stands(c, members, a);
    VotesYes(c1, a, b, log);
    assert |c2.nodes| == |c2.nodes.Keys| && {a} + {b} == {a, b};
    hide OnTimeout, OnRequest, OnVoteRequest, Init;
  }
}
