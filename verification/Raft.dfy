/** Leader election: the handlers of one node, and every run of a cluster of such nodes. */
module Raft {
  import opened Wrappers

  datatype NodeState = Follower | Candidate | Leader

  datatype VoteRequest = VoteRequest(term: nat, candidateId: nat)
  datatype VoteResponse = VoteResponse(term: nat, voteGranted: bool)
  datatype Heartbeat = Heartbeat(term: nat, leaderId: nat)
  datatype HeartbeatResponse = HeartbeatResponse(term: nat, success: bool)

  /** The variables of a node.  `clusterSize` is the length of its configured node list. */
  datatype Node = Node(
    id: nat, clusterSize: nat,
    term: nat, votedFor: Option<nat>,
    state: NodeState, leader: Option<nat>, votes: map<nat, bool>)

  function NewNode(id: nat, clusterSize: nat): Node {
    Node(id, clusterSize, 0, None, Follower, None, map[])
  }

  function VotesNeeded(clusterSize: nat): nat { (clusterSize + 1) / 2 + 1 }

  function CountVotes(votes: map<nat, bool>): nat { |set k | k in votes && votes[k]| }

  // ---- What the handlers do to the variables ----

  function OnStartElection(n: Node): Node {
    var c := n.(state := Candidate, term := n.term + 1, votedFor := Some(n.id), votes := map[n.id := true]);
    if CountVotes(c.votes) >= VotesNeeded(n.clusterSize) then c.(state := Leader, leader := Some(n.id)) else c
  }

  function OnVoteRequest(n: Node, request: VoteRequest): (Node, VoteResponse) {
    if request.term < n.term then
      (n, VoteResponse(n.term, false))
    else
      var m := if request.term > n.term
               then n.(term := request.term, votedFor := None, state := Follower, leader := None)
               else n;
      if m.votedFor == None || m.votedFor == Some(request.candidateId) then
        (m.(votedFor := Some(request.candidateId)), VoteResponse(request.term, true))
      else
        (m, VoteResponse(n.term, false))
  }

  function OnHeartbeat(n: Node, heartbeat: Heartbeat): (Node, HeartbeatResponse) {
    if heartbeat.term < n.term then
      (n, HeartbeatResponse(n.term, false))
    else
      var m := if heartbeat.term > n.term then n.(term := heartbeat.term, votedFor := None) else n;
      var f := if m.state == Candidate then m.(state := Follower) else m;
      (f.(leader := Some(heartbeat.leaderId)), HeartbeatResponse(heartbeat.term, true))
  }

  // ---- The node ----

  class RaftNode {
    const nodeId: nat
    const clusterNodes: seq<nat>
    var currentTerm: nat
    var votedFor: Option<nat>
    var state: NodeState
    var leaderId: Option<nat>
    var votesReceived: map<nat, bool>

    function View(): Node
      reads this
    {
      Node(nodeId, |clusterNodes|, currentTerm, votedFor, state, leaderId, votesReceived)
    }

    constructor (nodeId: nat, clusterNodes: seq<nat>)
      ensures this.nodeId == nodeId && this.clusterNodes == clusterNodes
      ensures View() == NewNode(nodeId, |clusterNodes|)
    {
      this.nodeId, this.clusterNodes := nodeId, clusterNodes;
      currentTerm, votedFor, state, leaderId, votesReceived := 0, None, Follower, None, map[];
    }

    method StartElection()
      modifies this
      ensures View() == OnStartElection(old(View()))
    {
      state := Candidate;
      currentTerm := currentTerm + 1;
      votedFor := Some(nodeId);
      votesReceived := map[];
      votesReceived := votesReceived[nodeId := true];
      var votesNeeded := (|clusterNodes| + 1) / 2 + 1;
      if CountVotes(votesReceived) >= votesNeeded {
        BecomeLeader();
      }
    }

    method BecomeLeader()
      modifies this`state, this`leaderId
      ensures state == Leader && leaderId == Some(nodeId)
    {
      state := Leader;
      leaderId := Some(nodeId);
    }

    method HandleVoteRequest(request: VoteRequest) returns (response: VoteResponse)
      modifies this
      ensures (View(), response) == OnVoteRequest(old(View()), request)
      ensures response.voteGranted ==> votedFor == Some(request.candidateId) && currentTerm == request.term
    {
      var current := currentTerm;
      if request.term < current {
        return VoteResponse(current, false);
      }
      if request.term > current {
        currentTerm := request.term;
        votedFor := None;
        state := Follower;
        leaderId := None;
      }
      var canVote := votedFor == None || votedFor == Some(request.candidateId);
      if canVote {
        votedFor := Some(request.candidateId);
        response := VoteResponse(request.term, true);
      } else {
        response := VoteResponse(current, false);
      }
    }

    method HandleHeartbeat(heartbeat: Heartbeat) returns (response: HeartbeatResponse)
      modifies this
      ensures (View(), response) == OnHeartbeat(old(View()), heartbeat)
      ensures response.success <==> heartbeat.term >= old(currentTerm)
      ensures response.success ==> state != Candidate && leaderId == Some(heartbeat.leaderId)
    {
      var current := currentTerm;
      if heartbeat.term < current {
        return HeartbeatResponse(current, false);
      }
      if heartbeat.term > current {
        currentTerm := heartbeat.term;
        votedFor := None;
      }
      if state == Candidate {
        state := Follower;
      }
      leaderId := Some(heartbeat.leaderId);
      response := HeartbeatResponse(heartbeat.term, true);
    }
  }

  // ---- A cluster ----

  datatype Vote = Vote(voter: nat, term: nat, candidate: nat)

  /** The nodes by their identifiers, and every vote granted so far, self-votes included. */
  datatype Cluster = Cluster(nodes: map<nat, Node>, granted: set<Vote>)

  datatype Event =
    | Election(node: nat)
    | Requested(node: nat, request: VoteRequest)
    | Beat(node: nat, heartbeat: Heartbeat)

  /** The event's node handles it.  Messages are not tied to their senders: any request or
      heartbeat may be delivered to any node at any time, any number of times. */
  function Handle(c: Cluster, e: Event): Cluster
    requires e.node in c.nodes
  {
    var n := c.nodes[e.node];
    match e
    case Election(k) =>
      var m := OnStartElection(n);
      Cluster(c.nodes[k := m], c.granted + {Vote(k, m.term, k)})
    case Requested(k, request) =>
      var (m, response) := OnVoteRequest(n, request);
      Cluster(c.nodes[k := m],
              if response.voteGranted then c.granted + {Vote(k, response.term, request.candidateId)} else c.granted)
    case Beat(k, heartbeat) =>
      Cluster(c.nodes[k := OnHeartbeat(n, heartbeat).0], c.granted)
  }

  function HandleAll(c: Cluster, events: seq<Event>): (end: Cluster)
    requires forall e | e in events :: e.node in c.nodes
    ensures end.nodes.Keys == c.nodes.Keys
  {
    if events == [] then c else Handle(HandleAll(c, events[..|events| - 1]), events[|events| - 1])
  }

  ghost predicate Fresh(c: Cluster) {
    c.granted == {} && forall k | k in c.nodes :: c.nodes[k] == NewNode(k, c.nodes[k].clusterSize)
  }

  /** A granted vote binds its voter for as long as the voter stays in that term. */
  ghost predicate Honest(c: Cluster, v: Vote) {
    && v.voter in c.nodes
    && v.term <= c.nodes[v.voter].term
    && (v.term == c.nodes[v.voter].term ==> c.nodes[v.voter].votedFor == Some(v.candidate))
  }

  ghost predicate VotesBind(c: Cluster) {
    && (forall v | v in c.granted :: Honest(c, v))
    && (forall v, w | v in c.granted && w in c.granted && v.voter == w.voter && v.term == w.term :: v == w)
    && (forall k | k in c.nodes :: c.nodes[k].id == k)
  }

  lemma VotesBindStep(c: Cluster, e: Event)
    requires VotesBind(c) && e.node in c.nodes
    ensures VotesBind(Handle(c, e))
  {
    var n := Handle(c, e);
    forall v | v in n.granted ensures Honest(n, v) {
      if v in c.granted { assert Honest(c, v); }
    }
    forall v, w | v in n.granted && w in n.granted && v.voter == w.voter && v.term == w.term ensures v == w {
      if v in c.granted { assert Honest(c, v); }
      if w in c.granted { assert Honest(c, w); }
    }
  }

  lemma {:induction false} VotesBindRun(c: Cluster, events: seq<Event>)
    requires Fresh(c) && forall e | e in events :: e.node in c.nodes
    ensures VotesBind(HandleAll(c, events))
  {
    if events != [] {
      var front := events[..|events| - 1];
      VotesBindRun(c, front);
      VotesBindStep(HandleAll(c, front), events[|events| - 1]);
    }
  }

  // ---- Election safety ----

  ghost function VotersFor(c: Cluster, term: nat, candidate: nat): set<nat> {
    set v | v in c.granted && v.term == term && v.candidate == candidate :: v.voter
  }

  /** The candidate holds as many granted votes in the term as a node with this configuration asks for. */
  ghost predicate Elected(c: Cluster, term: nat, candidate: nat, clusterSize: nat) {
    |VotersFor(c, term, candidate)| >= VotesNeeded(clusterSize)
  }

  lemma {:induction false} SubsetSize(a: set<nat>, b: set<nat>)
    requires a <= b
    ensures |a| <= |b|
    decreases a
  {
    if a != {} {
      var x :| x in a;
      SubsetSize(a - {x}, b - {x});
    }
  }

  lemma QuorumsMeet(a: set<nat>, b: set<nat>, all: set<nat>) returns (x: nat)
    requires a <= all && b <= all && |a| + |b| > |all|
    ensures x in a && x in b
  {
    SubsetSize(a + b, all);
    assert |a + b| + |a * b| == |a| + |b|;
    x :| x in a * b;
  }

  /** The votes that two candidates need exceed together the number of nodes. */
  predicate SafePair(sizeA: nat, sizeB: nat, nodes: nat) { VotesNeeded(sizeA) + VotesNeeded(sizeB) > nodes }

  predicate SafeQuorum(clusterSize: nat, nodes: nat) { SafePair(clusterSize, clusterSize, nodes) }

  /** The configuration is safe if it lists all nodes or all peers, and in general exactly if it
      misses no more than the node itself, or one more in a cluster of odd size. */
  lemma SafeConfigurations(clusterSize: nat, nodes: nat)
    ensures SafeQuorum(clusterSize, nodes) <==> clusterSize + (if nodes % 2 == 1 then 2 else 1) >= nodes
  {}

  /** At most one candidate per term gathers the votes it needs, in every run, whatever the lists of
      the two nodes, as long as their needs exceed the number of nodes together. */
  lemma ElectionSafety(c: Cluster, events: seq<Event>, term: nat, a: nat, b: nat, sizeA: nat, sizeB: nat)
    requires Fresh(c) && forall e | e in events :: e.node in c.nodes
    requires SafePair(sizeA, sizeB, |c.nodes|)
    requires Elected(HandleAll(c, events), term, a, sizeA) && Elected(HandleAll(c, events), term, b, sizeB)
    ensures a == b
  {
    var end := HandleAll(c, events);
    VotesBindRun(c, events);
    var all := end.nodes.Keys;
    assert |all| == |c.nodes|;
    var forA, forB := VotersFor(end, term, a), VotersFor(end, term, b);
    forall x | x in forA + forB ensures x in all {
      var v :| v in end.granted && v.voter == x;
      assert Honest(end, v);
    }
    var x := QuorumsMeet(forA, forB, all);
    assert Vote(x, term, a) in end.granted && Vote(x, term, b) in end.granted;
  }

  // ---- The condition on the configuration is exact ----

  /** n nodes, numbered from 0; the first q have node lists of one length, the others of another. */
  function NewCluster(n: nat, q: nat, sizeA: nat, sizeB: nat): Cluster {
    Cluster(map k | 0 <= k < n :: StartNode(k, q, sizeA, sizeB), {})
  }

  function StartNode(k: nat, q: nat, sizeA: nat, sizeB: nat): Node { NewNode(k, if k < q then sizeA else sizeB) }

  /** Two candidates, 0 and q, each start an election; nodes below q are asked by the one, the others
      by the other. */
  function Ask(k: nat, q: nat): (e: Event)
    ensures e.node == k
  {
    if k == 0 || k == q then Election(k) else Requested(k, VoteRequest(1, if k < q then 0 else q))
  }

  function Choice(k: nat, q: nat): Vote { Vote(k, 1, if k < q then 0 else q) }

  function Asks(k: nat, q: nat): (events: seq<Event>)
    ensures |events| == k && forall e | e in events :: e.node < k
  {
    if k == 0 then [] else Asks(k - 1, q) + [Ask(k - 1, q)]
  }

  ghost predicate Untouched(c: Cluster, from: nat, n: nat) {
    && (forall i | 0 <= i < n :: i in c.nodes)
    && forall i | from <= i < n :: c.nodes[i] == NewNode(i, c.nodes[i].clusterSize)
  }

  lemma AskStep(c: Cluster, q: nat, k: nat, n: nat)
    requires k < n && Untouched(c, k, n)
    ensures var m := Handle(c, Ask(k, q));
            Untouched(m, k + 1, n) && m.granted == c.granted + {Choice(k, q)}
  {
    var m := Handle(c, Ask(k, q));
    forall i | k < i < n ensures m.nodes[i] == c.nodes[i] {}
  }

  lemma HandleNone(c: Cluster)
    ensures HandleAll(c, []) == c
  {}

  lemma HandleOneMore(c: Cluster, events: seq<Event>, e: Event)
    requires (forall e | e in events :: e.node in c.nodes) && e.node in c.nodes
    ensures HandleAll(c, events + [e]) == Handle(HandleAll(c, events), e)
  {
    assert (events + [e])[..|events|] == events;
  }

  lemma OneMoreAsk(c: Cluster, events: seq<Event>, n: nat, q: nat, k: nat)
    requires k < n && (forall i | 0 <= i < n :: i in c.nodes) && forall e | e in events :: e.node in c.nodes
    requires Untouched(HandleAll(c, events), k, n)
    ensures var end := HandleAll(c, events + [Ask(k, q)]);
            Untouched(end, k + 1, n) && end.granted == HandleAll(c, events).granted + {Choice(k, q)}
  {
    hide Handle, HandleAll, Ask, Choice, Untouched;
    HandleOneMore(c, events, Ask(k, q));
    AskStep(HandleAll(c, events), q, k, n);
  }

  lemma {:induction false} SplitVote(c: Cluster, n: nat, q: nat, k: nat)
    requires k <= n && (forall i | 0 <= i < n :: i in c.nodes) && Untouched(c, 0, n)
    ensures var end := HandleAll(c, Asks(k, q));
            && Untouched(end, k, n)
            && forall i | 0 <= i < k :: Choice(i, q) in end.granted
  {
    hide Handle, HandleAll, Ask, Choice, Untouched;
    if k == 0 {
      HandleNone(c);
    } else {
      SplitVote(c, n, q, k - 1);
      OneMoreAsk(c, Asks(k - 1, q), n, q, k - 1);
    }
  }

  lemma {:induction false} RangeVoters(granted: set<Vote>, candidate: nat, lo: nat, hi: nat)
    requires lo <= hi && forall i | lo <= i < hi :: Vote(i, 1, candidate) in granted
    ensures var voters :=
              set v | v in granted && v.term == 1 && v.candidate == candidate && lo <= v.voter < hi :: v.voter;
            |voters| == hi - lo
    decreases hi - lo
  {
    var voters := set v | v in granted && v.term == 1 && v.candidate == candidate && lo <= v.voter < hi :: v.voter;
    if lo < hi {
      RangeVoters(granted, candidate, lo + 1, hi);
      var rest := set v | v in granted && v.term == 1 && v.candidate == candidate && lo + 1 <= v.voter < hi :: v.voter;
      assert lo in voters by { assert Vote(lo, 1, candidate) in granted; }
      assert voters == rest + {lo};
    } else {
      assert voters == {};
    }
  }

  /** Two nodes with the given node lists have both been elected in term 1. */
  ghost predicate BothElected(c: Cluster, events: seq<Event>, a: nat, b: nat, sizeA: nat, sizeB: nat) {
    && a in c.nodes && b in c.nodes && c.nodes[a].clusterSize == sizeA && c.nodes[b].clusterSize == sizeB
    && (forall e | e in events :: e.node in c.nodes)
    && Elected(HandleAll(c, events), 1, a, sizeA) && Elected(HandleAll(c, events), 1, b, sizeB)
  }

  /** Without that condition there is a run in which two such nodes are elected in one term. */
  lemma UnsafeConfigurationsSplit(n: nat, sizeA: nat, sizeB: nat)
    requires !SafePair(sizeA, sizeB, n)
    ensures var c := NewCluster(n, VotesNeeded(sizeA), sizeA, sizeB);
            && Fresh(c) && |c.nodes| == n
            && exists events, a, b :: a != b && BothElected(c, events, a, b, sizeA, sizeB)
  {
    hide HandleAll, Handle, Asks, VotersFor, Elected;
    var q, p := VotesNeeded(sizeA), VotesNeeded(sizeB);
    var c := NewCluster(n, q, sizeA, sizeB);
    NewClusterSize(n, q, sizeA, sizeB);
    var events := Asks(q + p, q);
    SplitVote(c, n, q, q + p);
    var end := HandleAll(c, events);
    forall i | 0 <= i < q ensures Vote(i, 1, 0) in end.granted { assert Choice(i, q) in end.granted; }
    forall i | q <= i < q + p ensures Vote(i, 1, q) in end.granted { assert Choice(i, q) in end.granted; }
    ElectedByRange(end, 0, 0, q, sizeA);
    ElectedByRange(end, q, q, q + p, sizeB);
    assert BothElected(c, events, 0, q, sizeA, sizeB);
  }

  lemma ElectedByRange(c: Cluster, candidate: nat, lo: nat, hi: nat, size: nat)
    requires lo <= hi && hi - lo == VotesNeeded(size)
    requires forall i | lo <= i < hi :: Vote(i, 1, candidate) in c.granted
    ensures Elected(c, 1, candidate, size)
  {
    RangeVoters(c.granted, candidate, lo, hi);
    SubsetSize(
      set v | v in c.granted && v.term == 1 && v.candidate == candidate && lo <= v.voter < hi :: v.voter,
      VotersFor(c, 1, candidate));
  }

  lemma {:induction false} NewClusterSize(n: nat, q: nat, sizeA: nat, sizeB: nat)
    ensures |NewCluster(n, q, sizeA, sizeB).nodes| == n
    decreases n
  {
    var keys := NewCluster(n, q, sizeA, sizeB).nodes.Keys;
    if n > 0 {
      NewClusterSize(n - 1, q, sizeA, sizeB);
      assert keys == NewCluster(n - 1, q, sizeA, sizeB).nodes.Keys + {n - 1};
    } else {
      assert keys == {};
    }
  }

  // ---- Who leads ----

  lemma OwnVoteCounts(id: nat)
    ensures CountVotes(map[id := true]) == 1
  {
    assert (set k | k in map[id := true] && map[id := true][k]) == {id};
  }

  /** Since no handler records the answers of others, an election is won exactly by a node whose
      configured list is empty: a node that lists even itself alone never wins. */
  lemma WinsIffListsNobody(n: Node)
    ensures OnStartElection(n).state == Leader <==> n.clusterSize == 0
  {
    OwnVoteCounts(n.id);
  }

  /** And no other event makes a leader, in any run. */
  lemma {:induction false} LeadersListNobody(c: Cluster, events: seq<Event>, k: nat)
    requires Fresh(c) && (forall e | e in events :: e.node in c.nodes) && k in c.nodes
    ensures HandleAll(c, events).nodes[k].clusterSize == c.nodes[k].clusterSize
    ensures HandleAll(c, events).nodes[k].state == Leader ==> c.nodes[k].clusterSize == 0
    ensures HandleAll(c, events).nodes[k].term >= c.nodes[k].term
  {
    if events != [] {
      var front := events[..|events| - 1];
      LeadersListNobody(c, front, k);
      WinsIffListsNobody(HandleAll(c, front).nodes[events[|events| - 1].node]);
      if events[|events| - 1].node != k {
        assert HandleAll(c, events).nodes[k] == HandleAll(c, front).nodes[k];
      }
    }
  }

  // ---- Leaders that hold no vote ----

  /** Since it last stood for election, the node has handled a heartbeat of a later term than its own. */
  ghost predicate Outdated(c: Cluster, events: seq<Event>, k: nat)
    requires k in c.nodes && forall e | e in events :: e.node in c.nodes
  {
    events != []
    && var front, e := events[..|events| - 1], events[|events| - 1];
       if e.node == k && e.Election? then false
       else Outdated(c, front, k) || LaterBeat(HandleAll(c, front).nodes[k], e, k)
  }

  predicate LaterBeat(n: Node, e: Event, k: nat) { e.Beat? && e.node == k && e.heartbeat.term > n.term }

  /** The node's own vote for itself, in its current term. */
  function OwnVote(c: Cluster, k: nat): Vote
    requires k in c.nodes
  {
    Vote(k, c.nodes[k].term, k)
  }

  /** The request that asks the node to vote for itself, in its current term. */
  function OwnRequest(c: Cluster, k: nat): Event
    requires k in c.nodes
  {
    Requested(k, VoteRequest(c.nodes[k].term, k))
  }

  ghost predicate LeadsByVote(c: Cluster, k: nat) {
    k in c.nodes && (c.nodes[k].state == Leader ==> c.nodes[k].votedFor == Some(k) && OwnVote(c, k) in c.granted)
  }

  lemma VotedLeaderStep(c: Cluster, e: Event, k: nat)
    requires VotesBind(c) && e.node in c.nodes && k in c.nodes
    requires LeadsByVote(c, k) || (e.Election? && e.node == k)
    requires !LaterBeat(c.nodes[k], e, k)
    ensures LeadsByVote(Handle(c, e), k)
  {
    hide CountVotes;
  }

  lemma OutdatedStep(c: Cluster, e: Event, k: nat)
    requires VotesBind(c) && e.node in c.nodes && k in c.nodes && !(e.Election? && e.node == k)
    requires LaterBeat(c.nodes[k], e, k) || OwnVote(c, k) !in c.granted
    ensures OwnVote(Handle(c, e), k) in Handle(c, e).granted ==> e == OwnRequest(Handle(c, e), k)
  {
    forall v | v in c.granted ensures Honest(c, v) {}
  }

  lemma SameTermStep(c: Cluster, e: Event, k: nat)
    requires VotesBind(c) && e.node in c.nodes && k in c.nodes && OwnVote(Handle(c, e), k) in c.granted
    ensures Handle(c, e).nodes[k].term == c.nodes[k].term
  {
    assert Honest(c, OwnVote(Handle(c, e), k));
  }

  /** A heartbeat of a later term leaves a leader leading.  A leader holds its own vote for its current
      term exactly as long as it has handled no such heartbeat since its election, unless it has since
      granted a request that asks it to vote for itself. */
  lemma {:induction false} LeaderHoldsVoteIff(c: Cluster, events: seq<Event>, k: nat)
    requires Fresh(c) && (forall e | e in events :: e.node in c.nodes) && k in c.nodes
    ensures var end := HandleAll(c, events);
            && (!Outdated(c, events, k) ==> LeadsByVote(end, k))
            && (Outdated(c, events, k) && OwnVote(end, k) in end.granted ==> OwnRequest(end, k) in events)
    ensures var end := HandleAll(c, events);
            end.nodes[k].state == Leader && OwnRequest(end, k) !in events ==>
              (OwnVote(end, k) in end.granted <==> !Outdated(c, events, k))
  {
    hide Handle, Fresh, VotesBind;
    if events == [] {
      FreshLeadsByVote(c, k);
    } else {
      var front, e := events[..|events| - 1], events[|events| - 1];
      assert e in events && forall x | x in front :: x in events;
      LeaderHoldsVoteIff(c, front, k);
      VotesBindRun(c, front);
      var before := HandleAll(c, front);
      assert HandleAll(c, events) == Handle(before, e);
      if !Outdated(c, events, k) {
        VotedLeaderStep(before, e, k);
      } else if OwnVote(Handle(before, e), k) in Handle(before, e).granted {
        if LaterBeat(before.nodes[k], e, k) || OwnVote(before, k) !in before.granted {
          OutdatedStep(before, e, k);
        } else if OwnVote(Handle(before, e), k) in before.granted {
          SameTermStep(before, e, k);
        } else {
          NewOwnVote(before, e, k);
        }
      }
    }
  }

  lemma NewOwnVote(c: Cluster, e: Event, k: nat)
    requires e.node in c.nodes && k in c.nodes && !(e.Election? && e.node == k)
    requires OwnVote(Handle(c, e), k) in Handle(c, e).granted && OwnVote(Handle(c, e), k) !in c.granted
    ensures e == OwnRequest(Handle(c, e), k)
  {}

  lemma FreshLeadsByVote(c: Cluster, k: nat)
    requires Fresh(c) && k in c.nodes
    ensures LeadsByVote(c, k)
  {}

  /** There are such leaders: a node that lists nobody stands for election and then hears of any later
      term.  It leads on in that term, in which nobody has voted for it. */
  lemma LeadsOnWithoutVote(c: Cluster, k: nat, heartbeat: Heartbeat)
    requires Fresh(c) && k in c.nodes && c.nodes[k].clusterSize == 0 && heartbeat.term > 1
    ensures var end := HandleAll(c, [Election(k), Beat(k, heartbeat)]);
            && end.nodes[k].state == Leader && end.nodes[k].term == heartbeat.term && end.nodes[k].votedFor == None
            && VotersFor(end, heartbeat.term, k) == {} && Outdated(c, [Election(k), Beat(k, heartbeat)], k)
  {
    hide HandleAll, OnStartElection, CountVotes;
    HandleNone(c);
    FirstElection(c, k);
    assert [Election(k), Beat(k, heartbeat)][..1] == [Election(k)];
    assert [] + [Election(k)] == [Election(k)];
    HandleOneMore(c, [], Election(k));
    assert [Election(k)] + [Beat(k, heartbeat)] == [Election(k), Beat(k, heartbeat)];
    HandleOneMore(c, [Election(k)], Beat(k, heartbeat));
  }

  lemma FirstElection(c: Cluster, k: nat)
    requires Fresh(c) && k in c.nodes && c.nodes[k].clusterSize == 0
    ensures var end := Handle(c, Election(k));
            && end.nodes[k].state == Leader && end.nodes[k].term == 1 && end.granted == {Vote(k, 1, k)}
  {
    hide CountVotes;
    WinsIffListsNobody(c.nodes[k]);
  }

  /** And the exception exists too: asked in its own name, such a leader votes for itself again. */
  lemma RegainsVote(c: Cluster, k: nat, heartbeat: Heartbeat)
    requires Fresh(c) && k in c.nodes && c.nodes[k].clusterSize == 0 && heartbeat.term > 1
    ensures var events := [Election(k), Beat(k, heartbeat)] + [Requested(k, VoteRequest(heartbeat.term, k))];
            var end := HandleAll(c, events);
            && Outdated(c, events, k) && end.nodes[k].state == Leader && OwnVote(end, k) in end.granted
  {
    hide HandleAll, Fresh, VotersFor;
    var events, request := [Election(k), Beat(k, heartbeat)], Requested(k, VoteRequest(heartbeat.term, k));
    LeadsOnWithoutVote(c, k, heartbeat);
    HandleOneMore(c, events, request);
    GrantsAgain(HandleAll(c, events), k);
    assert (events + [request])[..2] == events;
  }

  lemma GrantsAgain(c: Cluster, k: nat)
    requires k in c.nodes && c.nodes[k].votedFor == None
    ensures var after := Handle(c, OwnRequest(c, k));
            && after.nodes[k].state == c.nodes[k].state
            && OwnVote(after, k) == OwnVote(c, k) && OwnVote(after, k) in after.granted
  {}

  // ---- What the senders of requests and heartbeats learn ----

  /** A heartbeat is answered with success, and its sender recorded as the leader of its term, exactly if
      its term is not below the node's; otherwise the node is as it was, and the answer has its term. */
  lemma HeartbeatAnswered(n: Node, heartbeat: Heartbeat)
    ensures var (m, response) := OnHeartbeat(n, heartbeat);
            && (response.success <==> heartbeat.term >= n.term)
            && (response.success ==> m.leader == Some(heartbeat.leaderId) && m.term == response.term == heartbeat.term)
            && (!response.success ==> m == n && response.term == n.term > heartbeat.term)
            && (m.term != n.term ==> m.votedFor == None)
  {}

  /** A vote is granted exactly if its term is later than the node's, or is the node's and the node has
      not voted for another in it; a refusal carries the node's term and leaves the node as it was. */
  lemma VoteAnswered(n: Node, request: VoteRequest)
    ensures var (m, response) := OnVoteRequest(n, request);
            && (response.voteGranted <==>
                  request.term > n.term
                  || (request.term == n.term && (n.votedFor == None || n.votedFor == Some(request.candidateId))))
            && (response.voteGranted ==>
                  m.votedFor == Some(request.candidateId) && m.term == response.term == request.term)
            && (!response.voteGranted ==> m == n && response.term == n.term >= request.term)
            && (m.term != n.term ==> m.state == Follower && m.leader == None)
  {}

  // ---- Who stands, and whom a node takes for its leader ----

  /** The term of a node when it comes to handle event j. */
  ghost function TermAt(c: Cluster, events: seq<Event>, k: nat, j: nat): nat
    requires j < |events| && k in c.nodes && forall e | e in events :: e.node in c.nodes
  {
    HandleAll(c, events[..j]).nodes[k].term
  }

  /** A node that handles the event in the given term hears of a leader of that term or a later one, or
      of a candidate of a later one. */
  predicate HearsOfOther(e: Event, k: nat, term: nat) {
    e.node == k && ((e.Beat? && e.heartbeat.term >= term) || (e.Requested? && e.request.term > term))
  }

  /** The i-th event is the node's last election, and since then it has heard of nobody else. */
  ghost predicate StandsSince(c: Cluster, events: seq<Event>, k: nat, i: nat)
    requires k in c.nodes && forall e | e in events :: e.node in c.nodes
  {
    && i < |events| && events[i] == Election(k)
    && forall j | i < j < |events| :: events[j] != Election(k) && !HearsOfOther(events[j], k, TermAt(c, events, k, j))
  }

  /** A node is a candidate at the end of a run exactly if its list is not empty, it has stood for
      election, and since its last election it has handled no heartbeat of its term or a later one and
      no vote request of a later term. */
  lemma {:induction false} CandidateIff(c: Cluster, events: seq<Event>, k: nat)
    requires Fresh(c) && (forall e | e in events :: e.node in c.nodes) && k in c.nodes
    ensures HandleAll(c, events).nodes[k].state == Candidate
            <==> c.nodes[k].clusterSize > 0 && exists i :: StandsSince(c, events, k, i)
  {
    hide Handle, Fresh, StandsSince, HandleAll;
    if events == [] {
      NobodyStands(c, k);
    } else {
      var front, e := events[..|events| - 1], events[|events| - 1];
      assert e in events && forall x | x in front :: x in events;
      assert front + [e] == events;
      CandidateIff(c, front, k);
      LeadersListNobody(c, front, k);
      HandleOneMore(c, front, e);
      CandidateStep(HandleAll(c, front), e, k);
      StandsOneMore(c, front, e, k);
    }
  }

  lemma NobodyStands(c: Cluster, k: nat)
    requires Fresh(c) && k in c.nodes
    ensures HandleAll(c, []).nodes[k].state == Follower && !exists i :: StandsSince(c, [], k, i)
  {}

  lemma CandidateStep(c: Cluster, e: Event, k: nat)
    requires e.node in c.nodes && k in c.nodes
    ensures Handle(c, e).nodes[k].state == Candidate <==>
            if e == Election(k) then c.nodes[k].clusterSize > 0
            else c.nodes[k].state == Candidate && !HearsOfOther(e, k, c.nodes[k].term)
  {
    hide CountVotes;
    WinsIffListsNobody(c.nodes[k]);
  }

  lemma StandsOneMore(c: Cluster, front: seq<Event>, e: Event, k: nat)
    requires k in c.nodes && e.node in c.nodes && forall x | x in front :: x.node in c.nodes
    ensures (exists i :: StandsSince(c, front + [e], k, i)) <==>
            e == Election(k)
            || ((exists i :: StandsSince(c, front, k, i)) && !HearsOfOther(e, k, HandleAll(c, front).nodes[k].term))
  {
    hide HandleAll, HearsOfOther;
    var events, last := front + [e], |front|;
    assert events[..last] == front;
    forall j | 0 <= j < last ensures events[..j] == front[..j] {}
    if e == Election(k) {
      assert StandsSince(c, events, k, last);
    } else {
      forall i | 0 <= i < last
        ensures StandsSince(c, events, k, i) <==>
                StandsSince(c, front, k, i) && !HearsOfOther(e, k, HandleAll(c, front).nodes[k].term)
      {
        StandsOn(c, front, e, k, i);
      }
    }
  }

  lemma StandsOn(c: Cluster, front: seq<Event>, e: Event, k: nat, i: nat)
    requires k in c.nodes && e.node in c.nodes && (forall x | x in front :: x.node in c.nodes)
    requires e != Election(k) && i < |front|
    ensures StandsSince(c, front + [e], k, i) <==>
            StandsSince(c, front, k, i) && !HearsOfOther(e, k, HandleAll(c, front).nodes[k].term)
  {
    hide HandleAll, HearsOfOther;
    var events, last := front + [e], |front|;
    assert events[..last] == front && events[last] == e;
    forall j | 0 <= j < last ensures events[..j] == front[..j] {}
    if StandsSince(c, events, k, i) {
      assert !HearsOfOther(events[last], k, TermAt(c, events, k, last));
    }
  }

  /** What an event says to the node about its leader when it is handled in the given term: a name, that
      there is none, or nothing. */
  function Says(e: Event, k: nat, term: nat, clusterSize: nat): Option<Option<nat>> {
    if e.node != k then None
    else match e
         case Election(_) => if clusterSize == 0 then Some(Some(k)) else None
         case Beat(_, heartbeat) => if heartbeat.term >= term then Some(Some(heartbeat.leaderId)) else None
         case Requested(_, request) => if request.term > term then Some(None) else None
  }

  ghost function Said(c: Cluster, events: seq<Event>, k: nat, j: nat): Option<Option<nat>>
    requires j < |events| && k in c.nodes && forall e | e in events :: e.node in c.nodes
  {
    Says(events[j], k, TermAt(c, events, k, j), c.nodes[k].clusterSize)
  }

  /** The i-th event named the leader, and no later one said anything about it. */
  ghost predicate NamedSince(c: Cluster, events: seq<Event>, k: nat, leader: nat, i: nat)
    requires k in c.nodes && forall e | e in events :: e.node in c.nodes
  {
    && i < |events| && Said(c, events, k, i) == Some(Some(leader))
    && forall j | i < j < |events| :: Said(c, events, k, j) == None
  }

  /** Over any run: a node takes another for its leader exactly if that one sent the last heartbeat that
      was not from an earlier term, and no vote request of a later term came after it; or itself, in the
      same way, from an election that it won. */
  lemma {:induction false} KnownLeaderIff(c: Cluster, events: seq<Event>, k: nat, leader: nat)
    requires Fresh(c) && (forall e | e in events :: e.node in c.nodes) && k in c.nodes
    ensures HandleAll(c, events).nodes[k].leader == Some(leader) <==> exists i :: NamedSince(c, events, k, leader, i)
  {
    hide Handle, Fresh, NamedSince, HandleAll, Says;
    if events == [] {
      NobodyNamed(c, k, leader);
    } else {
      var front, e := events[..|events| - 1], events[|events| - 1];
      assert e in events && forall x | x in front :: x in events;
      assert front + [e] == events;
      KnownLeaderIff(c, front, k, leader);
      VotesBindRun(c, front);
      LeadersListNobody(c, front, k);
      HandleOneMore(c, front, e);
      LeaderStep(HandleAll(c, front), e, k);
      NamedOneMore(c, front, e, k, leader);
    }
  }

  lemma NobodyNamed(c: Cluster, k: nat, leader: nat)
    requires Fresh(c) && k in c.nodes
    ensures HandleAll(c, []).nodes[k].leader == None && !exists i :: NamedSince(c, [], k, leader, i)
  {}

  lemma LeaderStep(c: Cluster, e: Event, k: nat)
    requires VotesBind(c) && e.node in c.nodes && k in c.nodes
    ensures var said := Says(e, k, c.nodes[k].term, c.nodes[k].clusterSize);
            Handle(c, e).nodes[k].leader == if said.Some? then said.value else c.nodes[k].leader
  {
    hide CountVotes;
    WinsIffListsNobody(c.nodes[k]);
  }

  lemma NamedOneMore(c: Cluster, front: seq<Event>, e: Event, k: nat, leader: nat)
    requires k in c.nodes && e.node in c.nodes && forall x | x in front :: x.node in c.nodes
    ensures var said := Says(e, k, HandleAll(c, front).nodes[k].term, c.nodes[k].clusterSize);
            (exists i :: NamedSince(c, front + [e], k, leader, i)) <==>
            said == Some(Some(leader)) || (said == None && exists i :: NamedSince(c, front, k, leader, i))
  {
    hide HandleAll, Says;
    var events, last := front + [e], |front|;
    SaidBefore(c, front, e, k);
    if Said(c, events, k, last) == Some(Some(leader)) {
      assert NamedSince(c, events, k, leader, last);
    }
    forall i | 0 <= i < last
      ensures NamedSince(c, events, k, leader, i) <==>
              NamedSince(c, front, k, leader, i) && Said(c, events, k, last) == None
    {
      if NamedSince(c, events, k, leader, i) { assert Said(c, events, k, last) == None; }
    }
  }

  lemma SaidBefore(c: Cluster, front: seq<Event>, e: Event, k: nat)
    requires k in c.nodes && e.node in c.nodes && forall x | x in front :: x.node in c.nodes
    ensures forall j | 0 <= j < |front| :: Said(c, front + [e], k, j) == Said(c, front, k, j)
    ensures Said(c, front + [e], k, |front|) == Says(e, k, HandleAll(c, front).nodes[k].term, c.nodes[k].clusterSize)
  {
    hide HandleAll, Says;
    assert (front + [e])[..|front|] == front;
    forall j | 0 <= j < |front| ensures Said(c, front + [e], k, j) == Said(c, front, k, j) {
      assert (front + [e])[..j] == front[..j];
    }
  }
}
