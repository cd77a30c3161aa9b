/** Epochs and elections of Redis Cluster as a state machine: nodes with their local views, packets
    in flight, and the steps of cluster.c that touch epochs and votes. What a node believes about
    roles, slots, failures and vote times may change arbitrarily between steps. */
module Cluster {
  import opened Options

  /** Node names, ordered as memcmp orders them. */
  type Name = nat

  /** struct clusterNode, as one node sees another (or itself). */
  datatype Peer = Peer(configEpoch: nat, master: bool, slaveof: Option<Name>, failed: bool, votedTime: int)

  /** struct clusterState of one node. owner is the slots table. */
  datatype Node = Node(me: Name, currentEpoch: nat, lastVoteEpoch: nat, peers: map<Name, Peer>, owner: map<nat, Name>,
                       authEpoch: nat, authCount: nat, authSent: bool)

  datatype Kind = Ping | Other | AuthRequest(force: bool) | AuthAck | Update(node: Name, epoch: nat)

  /** struct clusterMsg: the header fields that matter here. */
  datatype Msg = Msg(to: Name, sender: Name, kind: Kind, currentEpoch: nat, configEpoch: nat, slots: set<nat>)

  function Max(a: nat, b: nat): nat {
    if a < b then b else a
  }

  predicate Serves(n: Node, p: Name) {
    exists j | j in n.owner :: n.owner[j] == p
  }

  /** The node whose slots and config epoch go into the header: the master of a replica. */
  function HeaderNode(n: Node): (r: Name)
    requires n.me in n.peers
    ensures r in n.peers
  {
    var me := n.peers[n.me];
    if !me.master && me.slaveof.Some? && me.slaveof.value in n.peers then me.slaveof.value else n.me
  }

  /** clusterBuildMessageHdr. */
  function Packet(n: Node, to: Name, kind: Kind): Msg
    requires n.me in n.peers
  {
    var p := HeaderNode(n);
    Msg(to, n.me, kind, n.currentEpoch, n.peers[p].configEpoch, set j | j in n.owner && n.owner[j] == p)
  }

  function WithEpoch(n: Node, p: Name, e: nat): Node
    requires p in n.peers
  {
    n.(peers := n.peers[p := n.peers[p].(configEpoch := e)])
  }

  // ---------------------------------------------------------------- handlers

  /** The header of a packet from a known node: adopt a greater current epoch and config epoch. */
  function MergeHeader(n: Node, m: Msg): Node
    requires m.sender in n.peers
  {
    WithEpoch(n.(currentEpoch := Max(n.currentEpoch, m.currentEpoch)), m.sender,
              Max(n.peers[m.sender].configEpoch, m.configEpoch))
  }

  /** Take the next epoch without asking anybody. */
  function SelfAssign(n: Node): Node
    requires n.me in n.peers
  {
    WithEpoch(n.(currentEpoch := n.currentEpoch + 1), n.me, n.currentEpoch + 1)
  }

  /** The end of PING processing together with clusterHandleConfigEpochCollision. */
  function HandleCollision(n: Node, m: Msg): Node
    requires n.me in n.peers && m.sender in n.peers
  {
    var me, s := n.peers[n.me], n.peers[m.sender];
    if !me.master || !s.master || m.configEpoch != me.configEpoch then n
    else if s.configEpoch != me.configEpoch then n
    else if m.sender <= n.me then n
    else SelfAssign(n)
  }

  /** clusterSendFailoverAuthIfNeeded: whether the vote is granted. */
  predicate GrantsVote(n: Node, m: Msg, now: int, timeout: int)
    requires n.me in n.peers && m.sender in n.peers && m.kind.AuthRequest?
  {
    var s := n.peers[m.sender];
    && n.peers[n.me].master && Serves(n, n.me)
    && m.currentEpoch >= n.currentEpoch
    && n.lastVoteEpoch != n.currentEpoch
    && !s.master && s.slaveof.Some? && s.slaveof.value in n.peers
    && (n.peers[s.slaveof.value].failed || m.kind.force)
    && now - n.peers[s.slaveof.value].votedTime >= timeout * 2
    && (forall j :: j in m.slots && j in n.owner && n.owner[j] in n.peers ==>
          n.peers[n.owner[j]].configEpoch <= m.configEpoch)
  }

  /** The state after the vote. */
  function Voted(n: Node, m: Msg, now: int): Node
    requires m.sender in n.peers && n.peers[m.sender].slaveof.Some? && n.peers[m.sender].slaveof.value in n.peers
  {
    var q := n.peers[m.sender].slaveof.value;
    n.(lastVoteEpoch := n.currentEpoch, peers := n.peers[q := n.peers[q].(votedTime := now)])
  }

  /** FAILOVER_AUTH_ACK: count the vote of a master that serves slots, if it is not from before
      the election that this node started last. */
  function HandleAck(n: Node, m: Msg): Node
    requires m.sender in n.peers
  {
    if n.peers[m.sender].master && Serves(n, m.sender) && m.currentEpoch >= n.authEpoch
    then n.(authCount := n.authCount + 1) else n
  }

  /** UPDATE: adopt a greater config epoch of the node it is about. */
  function HandleUpdate(n: Node, p: Name, e: nat): Node {
    if p !in n.peers || n.peers[p].configEpoch >= e then n
    else WithEpoch(n.(peers := n.peers[p := n.peers[p].(master := true)]), p, e)
  }

  /** clusterGetMaxEpoch. */
  ghost predicate IsMaxEpoch(n: Node, e: nat) {
    && n.currentEpoch <= e && (forall p :: p in n.peers ==> n.peers[p].configEpoch <= e)
    && (e == n.currentEpoch || exists p :: p in n.peers && n.peers[p].configEpoch == e)
  }

  /** clusterBumpConfigEpochWithoutConsensus, given the greatest epoch around. */
  function Bump(n: Node, maxEpoch: nat): Node
    requires n.me in n.peers
  {
    var e := n.peers[n.me].configEpoch;
    if e == 0 || e != maxEpoch then SelfAssign(n) else n
  }

  /** CLUSTER SET-CONFIG-EPOCH on a node that knows no other. */
  function SetConfigEpoch(n: Node, e: nat): Node
    requires n.me in n.peers
  {
    if |n.peers| > 1 || n.peers[n.me].configEpoch != 0 then n
    else WithEpoch(n.(currentEpoch := Max(n.currentEpoch, e)), n.me, e)
  }

  /** clusterHandleSlaveFailover, a new attempt: forget the votes of the last one. */
  function StartAttempt(n: Node): Node {
    n.(authCount := 0, authSent := false)
  }

  /** clusterHandleSlaveFailover, asking for votes: a new epoch, and from now on votes for it count. */
  function StartElection(n: Node): Node {
    n.(currentEpoch := n.currentEpoch + 1, authEpoch := n.currentEpoch + 1, authSent := true)
  }

  /** clusterHandleSlaveFailover, with the quorum: the election's epoch becomes the config epoch. */
  function Win(n: Node): Node
    requires n.me in n.peers
  {
    WithEpoch(n.(peers := n.peers[n.me := n.peers[n.me].(master := true, slaveof := None)]), n.me,
              Max(n.peers[n.me].configEpoch, n.authEpoch))
  }

  function Quorum(size: nat): nat {
    size / 2 + 1
  }

  // ---------------------------------------------------------------- the cluster

  /** votes: who voted for whom in which epoch; wins: who won the election of which epoch;
      counted: whose votes a candidate has counted in the election it is running;
      early: how many votes it had counted already when it started the election of which epoch. */
  datatype Vote = Vote(voter: Name, epoch: nat, candidate: Name)
  datatype Cluster = Cluster(nodes: map<Name, Node>, net: multiset<Msg>, votes: set<Vote>, wins: set<(Name, nat)>,
                             counted: map<Name, set<Name>>, early: map<(Name, nat), nat>)

  datatype Step =
    | Local(node: Name)
    | Send(node: Name, m: Msg)
    | Lose(m: Msg)
    | Receive(m: Msg)
    | Attempt(node: Name)
    | Elect(node: Name, requests: multiset<Msg>)
    | Promote(node: Name)

  /** Everything that may change about a node's view apart from epochs and votes: roles, slots,
      failure flags, vote times, nodes forgotten, and nodes met, with config epoch zero. */
  ghost predicate Reconfigured(n: Node, n1: Node) {
    && n1 == n.(peers := n1.peers, owner := n1.owner)
    && n.me in n.peers && n.me in n1.peers && n1.peers[n.me].configEpoch == n.peers[n.me].configEpoch
    && forall p :: p in n1.peers ==> n1.peers[p].configEpoch == if p in n.peers then n.peers[p].configEpoch else 0
  }

  /** The steps a node takes by itself. */
  ghost predicate LocalStep(n: Node, n1: Node) {
    && n.me in n.peers
    && (|| Reconfigured(n, n1)
        || (exists e :: IsMaxEpoch(n, e) && n1 == Bump(n, e))
        || (exists e :: n1 == SetConfigEpoch(n, e)))
  }

  ghost predicate MaySend(n: Node, m: Msg) {
    && n.me in n.peers
    && (m.kind.Ping? || m.kind.Other? || (m.kind.Update? && m.kind.node in n.peers && m.kind.epoch == n.peers[m.kind.node].configEpoch))
    && m == Packet(n, m.to, m.kind)
  }

  /** Processing of a packet that is not a vote request. */
  ghost predicate Processed(n: Node, m: Msg, n1: Node) {
    && n.me in n.peers
    && if m.sender !in n.peers then n1 == n
       else match m.kind
         case Ping => exists mid :: Reconfigured(MergeHeader(n, m), mid) && m.sender in mid.peers && n1 == HandleCollision(mid, m)
         case Other => n1 == MergeHeader(n, m)
         case AuthRequest(_) => n1 == MergeHeader(n, m)
         case AuthAck => n1 == HandleAck(MergeHeader(n, m), m)
         case Update(p, e) => n1 == HandleUpdate(MergeHeader(n, m), p, e)
  }

  /** Processing of a vote request that is granted. */
  ghost predicate Granted(n: Node, m: Msg, n1: Node, ack: Msg) {
    && n.me in n.peers && m.sender in n.peers && m.kind.AuthRequest?
    && (exists now, timeout :: GrantsVote(MergeHeader(n, m), m, now, timeout) && n1 == Voted(MergeHeader(n, m), m, now))
    && n1.me in n1.peers && ack == Packet(n1, m.sender, AuthAck)
  }

  /** A packet is taken from the network and processed. */
  ghost predicate ProcessStep(c: Cluster, c1: Cluster, m: Msg, n1: Node)
    requires m.to in c.nodes
  {
    && Processed(c.nodes[m.to], m, n1)
    && c1 == c.(nodes := c.nodes[m.to := n1], net := c.net - multiset{m},
                counted := if n1.authCount > c.nodes[m.to].authCount then Count(c.counted, m.to, m.sender) else c.counted)
  }

  /** A vote request is taken from the network and granted. */
  ghost predicate GrantStep(c: Cluster, c1: Cluster, m: Msg, n1: Node, ack: Msg)
    requires m.to in c.nodes
  {
    && Granted(c.nodes[m.to], m, n1, ack)
    && c1 == c.(nodes := c.nodes[m.to := n1], net := c.net - multiset{m} + multiset{ack},
                votes := c.votes + {Vote(m.to, n1.currentEpoch, m.sender)})
  }

  /** A replica asks for votes. */
  ghost predicate ElectStep(c: Cluster, c1: Cluster, i: Name, requests: multiset<Msg>) {
    && i in c.nodes && !c.nodes[i].authSent && c.nodes[i].me in c.nodes[i].peers
    && (forall m :: m in requests ==> m.kind.AuthRequest? && m == Packet(StartElection(c.nodes[i]), m.to, m.kind))
    && c1 == c.(nodes := c.nodes[i := StartElection(c.nodes[i])], net := c.net + requests, counted := c.counted[i := {}],
                early := c.early[(i, c.nodes[i].currentEpoch + 1) := c.nodes[i].authCount])
  }

  /** A replica that has asked for votes finds that it has a quorum. */
  ghost predicate PromoteStep(V: set<Name>, c: Cluster, c1: Cluster, i: Name) {
    && i in c.nodes && c.nodes[i].authSent && c.nodes[i].authCount >= Quorum(|V|)
    && c.nodes[i].me in c.nodes[i].peers && !c.nodes[i].peers[c.nodes[i].me].master
    && c1 == c.(nodes := c.nodes[i := Win(c.nodes[i])], wins := c.wins + {(i, c.nodes[i].authEpoch)})
  }

  /** One step of the cluster, in which the masters in V, and only they, may vote, and every node takes
      |V| for the size of the cluster. */
  ghost predicate Next(V: set<Name>, c: Cluster, c1: Cluster, st: Step) {
    match st
    case Local(i) =>
      i in c.nodes && exists n1 :: LocalStep(c.nodes[i], n1) && c1 == c.(nodes := c.nodes[i := n1])
    case Send(i, m) => i in c.nodes && MaySend(c.nodes[i], m) && c1 == c.(net := c.net + multiset{m})
    case Lose(m) => m in c.net && c1 == c.(net := c.net - multiset{m})
    case Receive(m) =>
      && m in c.net && m.to in c.nodes
      && (|| (exists n1 :: ProcessStep(c, c1, m, n1))
          || (m.to in V && exists n1, ack :: GrantStep(c, c1, m, n1, ack)))
    case Attempt(i) => i in c.nodes && c1 == c.(nodes := c.nodes[i := StartAttempt(c.nodes[i])])
    case Elect(i, requests) => ElectStep(c, c1, i, requests)
    case Promote(i) => PromoteStep(V, c, c1, i)
  }

  function Count(counted: map<Name, set<Name>>, i: Name, v: Name): map<Name, set<Name>> {
    counted[i := (if i in counted then counted[i] else {}) + {v}]
  }

  /** Fresh nodes: nothing sent, nothing voted, every epoch zero. */
  ghost predicate Init(c: Cluster) {
    && c.net == multiset{} && c.votes == {} && c.wins == {} && c.early == map[]
    && forall i :: i in c.nodes ==>
         var n := c.nodes[i];
         && n.me == i && i in n.peers && n.currentEpoch == n.lastVoteEpoch == n.authEpoch == n.authCount == 0 && !n.authSent
         && forall p :: p in n.peers ==> n.peers[p].configEpoch == 0
  }

  ghost predicate Run(V: set<Name>, states: seq<Cluster>, steps: seq<Step>) {
    && |states| == |steps| + 1 && Init(states[0])
    && forall i :: 0 <= i < |steps| ==> Next(V, states[i], states[i + 1], steps[i])
  }

  // ---------------------------------------------------------------- epochs are bounded

  ghost predicate NodeOk(i: Name, n: Node) {
    && n.me == i && i in n.peers
    && n.lastVoteEpoch <= n.currentEpoch && n.authEpoch <= n.currentEpoch
    && forall p :: p in n.peers ==> n.peers[p].configEpoch <= n.currentEpoch
  }

  ghost predicate MsgOk(m: Msg) {
    m.configEpoch <= m.currentEpoch && (m.kind.Update? ==> m.kind.epoch <= m.currentEpoch)
  }

  /** Every config epoch that a node knows or a packet carries is at most the current epoch there. */
  ghost predicate EpochsBounded(c: Cluster) {
    && (forall i :: i in c.nodes ==> NodeOk(i, c.nodes[i]))
    && (forall m :: m in c.net ==> MsgOk(m))
  }

  lemma LocalKeepsBound(i: Name, n: Node, n1: Node)
    requires NodeOk(i, n) && LocalStep(n, n1)
    ensures NodeOk(i, n1)
  {
  }

  lemma MergeKeepsBound(i: Name, n: Node, m: Msg)
    requires NodeOk(i, n) && MsgOk(m) && m.sender in n.peers
    ensures var n1 := MergeHeader(n, m);
            NodeOk(i, n1) && n1.currentEpoch >= m.currentEpoch && n1.peers.Keys == n.peers.Keys
  {
  }

  lemma CollisionKeepsBound(i: Name, n: Node, m: Msg)
    requires NodeOk(i, n) && m.sender in n.peers
    ensures NodeOk(i, HandleCollision(n, m))
  {
  }

  lemma UpdateKeepsBound(i: Name, n: Node, p: Name, e: nat)
    requires NodeOk(i, n) && e <= n.currentEpoch
    ensures NodeOk(i, HandleUpdate(n, p, e))
  {
  }

  /** A ping may also tell of nodes and slots, before its epoch is compared with one's own. */
  lemma PingKeepsBound(i: Name, n: Node, m: Msg, mid: Node)
    requires NodeOk(i, n) && Reconfigured(n, mid) && m.sender in mid.peers
    ensures var n1 := HandleCollision(mid, m);
            && NodeOk(i, n1) && n1.authEpoch == n.authEpoch && n1.lastVoteEpoch == n.lastVoteEpoch
            && n1.authSent == n.authSent && n1.authCount == n.authCount
  {
    LocalKeepsBound(i, n, mid);
    CollisionKeepsBound(i, mid, m);
  }

  lemma ProcessingKeepsBound(i: Name, n: Node, m: Msg, n1: Node)
    requires NodeOk(i, n) && MsgOk(m) && Processed(n, m, n1)
    ensures NodeOk(i, n1)
    ensures n1.authEpoch == n.authEpoch && n1.lastVoteEpoch == n.lastVoteEpoch && n1.authSent == n.authSent
    ensures n1.authCount == n.authCount || (m.kind == AuthAck && m.currentEpoch >= n.authEpoch && n1.authCount == n.authCount + 1)
  {
    if m.sender in n.peers {
      MergeKeepsBound(i, n, m);
      match m.kind
      case Ping =>
        var mid :| Reconfigured(MergeHeader(n, m), mid) && m.sender in mid.peers && n1 == HandleCollision(mid, m);
        PingKeepsBound(i, MergeHeader(n, m), m, mid);
      case Update(p, e) =>
        UpdateKeepsBound(i, MergeHeader(n, m), p, e);
      case _ =>
    }
  }

  lemma VotingKeepsBound(i: Name, n: Node, m: Msg, n1: Node, ack: Msg)
    requires NodeOk(i, n) && MsgOk(m) && Granted(n, m, n1, ack)
    ensures NodeOk(i, n1) && MsgOk(ack)
    ensures n1.currentEpoch == m.currentEpoch == n1.lastVoteEpoch == ack.currentEpoch && n.lastVoteEpoch < m.currentEpoch
    ensures n1.authEpoch == n.authEpoch && n1.authSent == n.authSent && n1.authCount == n.authCount
    ensures ack.kind == AuthAck && ack.to == m.sender && ack.sender == i
  {
  }

  lemma NodeChange(c: Cluster, c1: Cluster, i: Name, n1: Node)
    requires EpochsBounded(c) && i in c.nodes && NodeOk(i, n1) && c1.nodes == c.nodes[i := n1]
    requires forall m :: m in c1.net ==> m in c.net || MsgOk(m)
    ensures EpochsBounded(c1)
  {
  }

  lemma ProcessKeepsBound(c: Cluster, c1: Cluster, m: Msg, n1: Node)
    requires EpochsBounded(c) && m in c.net && m.to in c.nodes && ProcessStep(c, c1, m, n1)
    ensures EpochsBounded(c1)
  {
    ProcessingKeepsBound(m.to, c.nodes[m.to], m, n1);
    NodeChange(c, c1, m.to, n1);
  }

  lemma GrantKeepsBound(c: Cluster, c1: Cluster, m: Msg, n1: Node, ack: Msg)
    requires EpochsBounded(c) && m in c.net && m.to in c.nodes && GrantStep(c, c1, m, n1, ack)
    ensures EpochsBounded(c1)
  {
    VotingKeepsBound(m.to, c.nodes[m.to], m, n1, ack);
    NodeChange(c, c1, m.to, n1);
  }

  lemma ReceiveKeepsBound(V: set<Name>, c: Cluster, c1: Cluster, m: Msg)
    requires EpochsBounded(c) && Next(V, c, c1, Receive(m))
    ensures EpochsBounded(c1)
  {
    if n1 :| ProcessStep(c, c1, m, n1) {
      ProcessKeepsBound(c, c1, m, n1);
    } else {
      var n1, ack :| GrantStep(c, c1, m, n1, ack);
      GrantKeepsBound(c, c1, m, n1, ack);
    }
  }

  lemma ElectKeepsBound(c: Cluster, c1: Cluster, i: Name, requests: multiset<Msg>)
    requires EpochsBounded(c) && ElectStep(c, c1, i, requests)
    ensures EpochsBounded(c1)
  {
    assert NodeOk(i, c1.nodes[i]);
  }

  lemma SendKeepsBound(c: Cluster, c1: Cluster, i: Name, m: Msg)
    requires EpochsBounded(c) && i in c.nodes && MaySend(c.nodes[i], m) && c1 == c.(net := c.net + multiset{m})
    ensures EpochsBounded(c1)
  {
    assert NodeOk(i, c.nodes[i]);
  }

  lemma PromoteKeepsBound(V: set<Name>, c: Cluster, c1: Cluster, i: Name)
    requires EpochsBounded(c) && PromoteStep(V, c, c1, i)
    ensures EpochsBounded(c1)
  {
    assert NodeOk(i, c.nodes[i]);
    NodeChange(c, c1, i, Win(c.nodes[i]));
  }

  lemma EpochStep(V: set<Name>, c: Cluster, c1: Cluster, st: Step)
    requires EpochsBounded(c) && Next(V, c, c1, st)
    ensures EpochsBounded(c1)
  {
    match st
    case Local(i) =>
      var n1 :| LocalStep(c.nodes[i], n1) && c1 == c.(nodes := c.nodes[i := n1]);
      LocalKeepsBound(i, c.nodes[i], n1);
      NodeChange(c, c1, i, n1);
    case Send(i, m) => SendKeepsBound(c, c1, i, m);
    case Lose(m) =>
    case Receive(m) => ReceiveKeepsBound(V, c, c1, m);
    case Attempt(i) => NodeChange(c, c1, i, StartAttempt(c.nodes[i]));
    case Elect(i, requests) => ElectKeepsBound(c, c1, i, requests);
    case Promote(i) => PromoteKeepsBound(V, c, c1, i);
  }

  lemma InitKeepsBound(c: Cluster)
    requires Init(c)
    ensures EpochsBounded(c)
  {
  }

  /** In every reachable state epochs are bounded. */
  lemma {:induction false} EpochBound(V: set<Name>, states: seq<Cluster>, steps: seq<Step>, k: nat)
    requires Run(V, states, steps) && k < |states|
    ensures EpochsBounded(states[k])
  {
    if k == 0 {
      InitKeepsBound(states[0]);
    } else {
      EpochBound(V, states, steps, k - 1);
      EpochStep(V, states[k - 1], states[k], steps[k - 1]);
    }
  }

  /** So an epoch that a node assigns to itself, by a collision, a bump or an election, is greater than
      every config epoch it knows. */
  lemma SelfAssignedEpochIsFresh(i: Name, n: Node, n1: Node, m: Msg, e: nat)
    requires NodeOk(i, n)
    requires n1 == Bump(n, e) || n1 == StartElection(n) || (m.sender in n.peers && n1 == HandleCollision(n, m))
    ensures n1.currentEpoch != n.currentEpoch ==>
      && (forall p :: p in n.peers ==> n.peers[p].configEpoch < n1.currentEpoch)
      && (n1.authEpoch == n1.currentEpoch || n1.peers[i].configEpoch == n1.currentEpoch)
  {
  }

  lemma SubsetSize(a: set<nat>, b: set<nat>)
    requires a <= b
    ensures |a| <= |b|
  {
    assert a + (b - a) == b;
  }
}
