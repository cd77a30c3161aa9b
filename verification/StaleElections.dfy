/** Votes that arrive late elect two replicas in one epoch: for every set of voters there is a run in which
    the counts at the starts of the two elections add up to no more than they must. */
module StaleElections {
  import opened Options
  import opened Cluster
  import opened Elections

  // ---------------------------------------------------------------- one shard and its voters

  function Master(): Peer {
    Peer(0, true, None, false, 0)
  }

  function Slave(m: Name): Peer {
    Peer(0, false, Some(m), false, 0)
  }

  /** What everybody knows: the peers and the slots table. */
  datatype View = View(peers: map<Name, Peer>, owner: map<nat, Name>)

  /** The masters of V serve slots, each one of the same number as its name; x and y are replicas of m, which
      is one of them. All config epochs are zero. */
  ghost predicate Shard(w: View, V: set<Name>, m: Name, x: Name, y: Name) {
    && m in V && x !in V && y !in V && x != y
    && w.peers.Keys == V + {x, y} && w.owner.Keys == V
    && (forall v :: v in V ==> w.peers[v] == Master() && w.owner[v] == v)
    && w.peers[x] == Slave(m) && w.peers[y] == Slave(m)
  }

  /** A node with that view. */
  function At(w: View, i: Name, cur: nat, last: nat, auth: nat, count: nat, sent: bool): Node {
    Node(i, cur, last, w.peers, w.owner, auth, count, sent)
  }

  function Req(w: View, m: Name, v: Name, i: Name, e: nat): Msg {
    Msg(v, i, AuthRequest(true), e, 0, set j | j in w.owner && w.owner[j] == m)
  }

  function Ack(w: View, v: Name, i: Name, e: nat): Msg {
    Msg(i, v, AuthAck, e, 0, set j | j in w.owner && w.owner[j] == v)
  }

  /** A run and its last state. */
  ghost predicate RunTo(V: set<Name>, states: seq<Cluster>, steps: seq<Step>, c: Cluster) {
    Run(V, states, steps) && states[|steps|] == c
  }

  ghost predicate Reaches(V: set<Name>, c: Cluster) {
    exists states: seq<Cluster>, steps: seq<Step> :: RunTo(V, states, steps, c)
  }

  lemma Extend(V: set<Name>, c: Cluster, st: Step, c1: Cluster)
    requires Reaches(V, c) && Next(V, c, c1, st)
    ensures Reaches(V, c1)
  {
    var states: seq<Cluster>, steps: seq<Step> :| RunTo(V, states, steps, c);
    assert RunTo(V, states + [c1], steps + [st], c1);
  }

  /** The voter has not voted in the epoch, nor heard of a later one. */
  ghost predicate CanVote(w: View, c: Cluster, v: Name, e: nat)
    requires v in c.nodes
  {
    var n := c.nodes[v];
    n == At(w, v, n.currentEpoch, n.lastVoteEpoch, 0, 0, false) && n.currentEpoch <= e && n.lastVoteEpoch < e
  }

  // ---------------------------------------------------------------- one step

  lemma RequestIs(w: View, V: set<Name>, m: Name, x: Name, y: Name, i: Name, n: Node, v: Name)
    requires Shard(w, V, m, x, y) && i in {x, y} && n.me == i && n.peers == w.peers && n.owner == w.owner
    ensures Packet(n, v, AuthRequest(true)) == Req(w, m, v, i, n.currentEpoch)
  {
  }

  lemma ReplicaAsks(w: View, V: set<Name>, m: Name, x: Name, y: Name, c: Cluster, i: Name, n: Node, W: set<Name>, req: Letter)
    returns (c1: Cluster)
    requires Shard(w, V, m, x, y) && Reaches(V, c) && i in {x, y} && i in c.nodes
    requires c.nodes[i] == n == At(w, i, n.currentEpoch, 0, n.authEpoch, n.authCount, false)
    requires forall v, i, e :: req(v, i, e) == Req(w, m, v, i, e)
    ensures Reaches(V, c1)
    ensures var e := n.currentEpoch + 1;
            c1 == c.(nodes := c.nodes[i := At(w, i, e, 0, e, n.authCount, true)], net := c.net + Requests(req, W, i, e),
                     counted := c.counted[i := {}], early := c.early[(i, e) := n.authCount])
  {
    var e, requests := n.currentEpoch + 1, Requests(req, W, i, n.currentEpoch + 1);
    c1 := c.(nodes := c.nodes[i := At(w, i, e, 0, e, n.authCount, true)], net := c.net + requests,
             counted := c.counted[i := {}], early := c.early[(i, e) := n.authCount]);
    var n1 := StartElection(n);
    forall r | r in requests
      ensures r.kind.AuthRequest? && r == Packet(n1, r.to, r.kind)
    {
      var v :| v in W && r == req(v, i, e);
      RequestIs(w, V, m, x, y, i, n1, v);
    }
    Extend(V, c, Elect(i, requests), c1);
  }

  lemma ReplicaRetries(V: set<Name>, c: Cluster, i: Name) returns (c1: Cluster)
    requires Reaches(V, c) && i in c.nodes
    ensures Reaches(V, c1) && c1 == c.(nodes := c.nodes[i := c.nodes[i].(authCount := 0, authSent := false)])
  {
    c1 := c.(nodes := c.nodes[i := StartAttempt(c.nodes[i])]);
    Extend(V, c, Attempt(i), c1);
  }

  lemma VoterCanGrant(w: View, V: set<Name>, m: Name, x: Name, y: Name, v: Name, n: Node, i: Name, e: nat)
    requires Shard(w, V, m, x, y) && v in V && i in {x, y}
    requires n == At(w, v, n.currentEpoch, n.lastVoteEpoch, 0, 0, false) && n.currentEpoch <= e && n.lastVoteEpoch < e
    ensures Granted(n, Req(w, m, v, i, e), At(w, v, e, e, 0, 0, false), Ack(w, v, i, e))
  {
    var r := Req(w, m, v, i, e);
    var k := MergeHeader(n, r);
    assert n.peers[i := n.peers[i].(configEpoch := 0)] == n.peers;
    assert k == n.(currentEpoch := e);
    assert k.owner[v] == v && Serves(k, v);
    assert GrantsVote(k, r, 0, 0);
    assert n.peers[m := n.peers[m].(votedTime := 0)] == n.peers;
    assert Voted(k, r, 0) == At(w, v, e, e, 0, 0, false);
  }

  lemma VoterGrants(w: View, V: set<Name>, m: Name, x: Name, y: Name, c: Cluster, v: Name, i: Name, e: nat)
    returns (c1: Cluster)
    requires Shard(w, V, m, x, y) && Reaches(V, c) && v in V && i in {x, y} && v in c.nodes && CanVote(w, c, v, e)
    requires Req(w, m, v, i, e) in c.net
    ensures Reaches(V, c1)
    ensures c1 == c.(nodes := c.nodes[v := At(w, v, e, e, 0, 0, false)],
                     net := c.net - multiset{Req(w, m, v, i, e)} + multiset{Ack(w, v, i, e)},
                     votes := c.votes + {Vote(v, e, i)})
  {
    var r, n1 := Req(w, m, v, i, e), At(w, v, e, e, 0, 0, false);
    VoterCanGrant(w, V, m, x, y, v, c.nodes[v], i, e);
    c1 := c.(nodes := c.nodes[v := n1], net := c.net - multiset{r} + multiset{Ack(w, v, i, e)},
             votes := c.votes + {Vote(v, e, i)});
    assert GrantStep(c, c1, r, n1, Ack(w, v, i, e));
    Extend(V, c, Receive(r), c1);
  }

  lemma ReplicaCounts(w: View, V: set<Name>, m: Name, x: Name, y: Name, c: Cluster, v: Name, i: Name, e: nat, n: Node)
    returns (c1: Cluster)
    requires Shard(w, V, m, x, y) && Reaches(V, c) && v in V && i in {x, y} && i in c.nodes
    requires c.nodes[i] == n == At(w, i, n.currentEpoch, 0, n.authEpoch, n.authCount, n.authSent)
    requires n.authEpoch <= e <= n.currentEpoch && Ack(w, v, i, e) in c.net
    ensures Reaches(V, c1)
    ensures c1 == c.(nodes := c.nodes[i := n.(authCount := n.authCount + 1)], net := c.net - multiset{Ack(w, v, i, e)},
                     counted := Count(c.counted, i, v))
  {
    var r, n1 := Ack(w, v, i, e), n.(authCount := n.authCount + 1);
    c1 := c.(nodes := c.nodes[i := n1], net := c.net - multiset{r}, counted := Count(c.counted, i, v));
    assert n.peers[v := n.peers[v].(configEpoch := 0)] == n.peers;
    assert MergeHeader(n, r) == n;
    assert n.owner[v] == v && Serves(n, v);
    assert Processed(n, r, n1);
    assert ProcessStep(c, c1, r, n1);
    Extend(V, c, Receive(r), c1);
  }

  lemma ReplicaWins(w: View, V: set<Name>, m: Name, x: Name, y: Name, c: Cluster, i: Name, n: Node) returns (c1: Cluster)
    requires Shard(w, V, m, x, y) && Reaches(V, c) && i in {x, y} && i in c.nodes
    requires c.nodes[i] == n == At(w, i, n.currentEpoch, 0, n.authEpoch, Quorum(|V|), true)
    ensures Reaches(V, c1) && c1 == c.(nodes := c.nodes[i := Win(n)], wins := c.wins + {(i, n.authEpoch)})
  {
    c1 := c.(nodes := c.nodes[i := Win(n)], wins := c.wins + {(i, n.authEpoch)});
    Extend(V, c, Promote(i), c1);
  }

  // ---------------------------------------------------------------- the steps, as laws of what is reachable

  type Reach = Cluster -> bool
  type Letter = (Name, Name, nat) -> Msg

  /** The voters, the two replicas, what all know, and the packets between them. */
  datatype Env = Env(V: set<Name>, x: Name, y: Name, w: View, req: Letter, ack: Letter)

  ghost predicate IsReplica(s: Env, c: Cluster, i: Name) {
    && (i == s.x || i == s.y) && i in c.nodes
    && var n := c.nodes[i]; n == At(s.w, i, n.currentEpoch, 0, n.authEpoch, n.authCount, n.authSent)
  }

  /** The requests to a set of voters. */
  ghost function Requests(req: Letter, W: set<Name>, i: Name, e: nat): multiset<Msg> {
    multiset(set v | v in W :: req(v, i, e))
  }

  ghost function AfterAsking(s: Env, c: Cluster, i: Name, W: set<Name>): Cluster
    requires i in c.nodes
  {
    var e, k := c.nodes[i].currentEpoch + 1, c.nodes[i].authCount;
    c.(nodes := c.nodes[i := At(s.w, i, e, 0, e, k, true)], net := c.net + Requests(s.req, W, i, e),
       counted := c.counted[i := {}], early := c.early[(i, e) := k])
  }

  ghost function AfterRetry(c: Cluster, i: Name): Cluster
    requires i in c.nodes
  {
    c.(nodes := c.nodes[i := c.nodes[i].(authCount := 0, authSent := false)])
  }

  ghost function AfterVote(s: Env, c: Cluster, v: Name, i: Name, e: nat): Cluster {
    c.(nodes := c.nodes[v := At(s.w, v, e, e, 0, 0, false)],
       net := c.net - multiset{s.req(v, i, e)} + multiset{s.ack(v, i, e)}, votes := c.votes + {Vote(v, e, i)})
  }

  ghost function AfterCount(s: Env, c: Cluster, v: Name, i: Name, e: nat): Cluster
    requires i in c.nodes
  {
    c.(nodes := c.nodes[i := c.nodes[i].(authCount := c.nodes[i].authCount + 1)],
       net := c.net - multiset{s.ack(v, i, e)}, counted := Count(c.counted, i, v))
  }

  /** The winner's view changes; nobody here looks at it any more. */
  ghost predicate AfterWin(c: Cluster, c1: Cluster, i: Name) {
    && i in c.nodes && c1.nodes.Keys == c.nodes.Keys && (forall j :: j in c.nodes && j != i ==> c1.nodes[j] == c.nodes[j])
    && c1.net == c.net && c1.votes == c.votes && c1.early == c.early && c1.wins == c.wins + {(i, c.nodes[i].authEpoch)}
  }

  ghost predicate AskLaw(reach: Reach, s: Env, c: Cluster, i: Name, W: set<Name>) {
    reach(c) && IsReplica(s, c, i) && !c.nodes[i].authSent ==> reach(AfterAsking(s, c, i, W))
  }

  ghost predicate RetryLaw(reach: Reach, c: Cluster, i: Name) {
    reach(c) && i in c.nodes ==> reach(AfterRetry(c, i))
  }

  ghost predicate VoteLaw(reach: Reach, s: Env, c: Cluster, v: Name, i: Name, e: nat) {
    reach(c) && v in s.V && (i == s.x || i == s.y) && v in c.nodes && CanVote(s.w, c, v, e) && s.req(v, i, e) in c.net
    ==> reach(AfterVote(s, c, v, i, e))
  }

  ghost predicate CountLaw(reach: Reach, s: Env, c: Cluster, v: Name, i: Name, e: nat) {
    && reach(c) && v in s.V && IsReplica(s, c, i) && c.nodes[i].authEpoch <= e <= c.nodes[i].currentEpoch && s.ack(v, i, e) in c.net
    ==> reach(AfterCount(s, c, v, i, e))
  }

  ghost predicate WinLaw(reach: Reach, s: Env, c: Cluster, i: Name) {
    reach(c) && IsReplica(s, c, i) && c.nodes[i].authSent && c.nodes[i].authCount == Quorum(|s.V|)
    ==> exists c1 :: reach(c1) && AfterWin(c, c1, i)
  }

  ghost predicate LetterLaw(s: Env, v: Name, u: Name, i: Name, e: nat) {
    v != u ==> s.req(v, i, e) != s.req(u, i, e) && s.ack(v, i, e) != s.ack(u, i, e) && s.req(v, i, e) != s.ack(u, i, e)
  }

  /** Packets to and from different voters are different. */
  ghost predicate Letters(s: Env) {
    && s.x !in s.V && s.y !in s.V && s.x != s.y
    && forall v, u, i, e :: LetterLaw(s, v, u, i, e)
  }

  ghost predicate VoteLaws(reach: Reach, s: Env) {
    forall c: Cluster, v, i, e :: VoteLaw(reach, s, c, v, i, e)
  }

  ghost predicate CountLaws(reach: Reach, s: Env) {
    forall c: Cluster, v, i, e :: CountLaw(reach, s, c, v, i, e)
  }

  ghost predicate Laws(reach: Reach, s: Env) {
    && Letters(s) && VoteLaws(reach, s) && CountLaws(reach, s)
    && (forall c: Cluster, i, W :: AskLaw(reach, s, c, i, W))
    && (forall c: Cluster, i :: RetryLaw(reach, c, i))
    && (forall c: Cluster, i :: WinLaw(reach, s, c, i))
  }

  ghost function ReachOf(V: set<Name>): Reach {
    c => Reaches(V, c)
  }

  ghost function EnvOf(w: View, V: set<Name>, m: Name, x: Name, y: Name): Env {
    Env(V, x, y, w, (v: Name, i: Name, e: nat) => Req(w, m, v, i, e), (v: Name, i: Name, e: nat) => Ack(w, v, i, e))
  }

  lemma AskHolds(w: View, V: set<Name>, m: Name, x: Name, y: Name, c: Cluster, i: Name, W: set<Name>)
    requires Shard(w, V, m, x, y)
    ensures AskLaw(ReachOf(V), EnvOf(w, V, m, x, y), c, i, W)
  {
    var s := EnvOf(w, V, m, x, y);
    if Reaches(V, c) && IsReplica(s, c, i) && !c.nodes[i].authSent {
      var c1 := ReplicaAsks(w, V, m, x, y, c, i, c.nodes[i], W, s.req);
    }
  }

  lemma RetryHolds(V: set<Name>, c: Cluster, i: Name)
    ensures RetryLaw(ReachOf(V), c, i)
  {
    if Reaches(V, c) && i in c.nodes {
      var c1 := ReplicaRetries(V, c, i);
    }
  }

  lemma VoteHolds(w: View, V: set<Name>, m: Name, x: Name, y: Name, c: Cluster, v: Name, i: Name, e: nat)
    requires Shard(w, V, m, x, y)
    ensures VoteLaw(ReachOf(V), EnvOf(w, V, m, x, y), c, v, i, e)
  {
    if Reaches(V, c) && v in V && (i == x || i == y) && v in c.nodes && CanVote(w, c, v, e) && Req(w, m, v, i, e) in c.net {
      var c1 := VoterGrants(w, V, m, x, y, c, v, i, e);
    }
  }

  lemma CountHolds(w: View, V: set<Name>, m: Name, x: Name, y: Name, c: Cluster, v: Name, i: Name, e: nat)
    requires Shard(w, V, m, x, y)
    ensures CountLaw(ReachOf(V), EnvOf(w, V, m, x, y), c, v, i, e)
  {
    var s := EnvOf(w, V, m, x, y);
    if Reaches(V, c) && v in V && IsReplica(s, c, i) && c.nodes[i].authEpoch <= e <= c.nodes[i].currentEpoch && Ack(w, v, i, e) in c.net {
      var c1 := ReplicaCounts(w, V, m, x, y, c, v, i, e, c.nodes[i]);
    }
  }

  lemma WinHolds(w: View, V: set<Name>, m: Name, x: Name, y: Name, c: Cluster, i: Name)
    requires Shard(w, V, m, x, y)
    ensures WinLaw(ReachOf(V), EnvOf(w, V, m, x, y), c, i)
  {
    var s := EnvOf(w, V, m, x, y);
    if Reaches(V, c) && IsReplica(s, c, i) && c.nodes[i].authSent && c.nodes[i].authCount == Quorum(|V|) {
      var c1 := ReplicaWins(w, V, m, x, y, c, i, c.nodes[i]);
      assert ReachOf(V)(c1) && AfterWin(c, c1, i);
    }
  }

  lemma LawsHold(w: View, V: set<Name>, m: Name, x: Name, y: Name)
    requires Shard(w, V, m, x, y)
    ensures Laws(ReachOf(V), EnvOf(w, V, m, x, y))
  {
    var reach, s := ReachOf(V), EnvOf(w, V, m, x, y);
    forall c: Cluster, i, W ensures AskLaw(reach, s, c, i, W) {
      AskHolds(w, V, m, x, y, c, i, W);
    }
    forall c: Cluster, i ensures RetryLaw(reach, c, i) {
      RetryHolds(V, c, i);
    }
    forall c: Cluster, v, i, e ensures VoteLaw(reach, s, c, v, i, e) {
      VoteHolds(w, V, m, x, y, c, v, i, e);
    }
    forall c: Cluster, v, i, e ensures CountLaw(reach, s, c, v, i, e) {
      CountHolds(w, V, m, x, y, c, v, i, e);
    }
    forall c: Cluster, i ensures WinLaw(reach, s, c, i) {
      WinHolds(w, V, m, x, y, c, i);
    }
  }

  // ---------------------------------------------------------------- many voters

  ghost function VotesOf(W: set<Name>, i: Name, e: nat): set<Vote> {
    set v | v in W :: Vote(v, e, i)
  }

  /** c1 is c after the voters of W have given i their votes of the epoch, which are on their way. */
  ghost predicate Granting(s: Env, c: Cluster, c1: Cluster, W: set<Name>, i: Name, e: nat) {
    && c1.wins == c.wins && c1.early == c.early && c1.nodes.Keys == c.nodes.Keys && W <= c.nodes.Keys
    && (forall j :: j in c.nodes ==> c1.nodes[j] == if j in W then At(s.w, j, e, e, 0, 0, false) else c.nodes[j])
    && (forall v :: v in W ==> s.ack(v, i, e) in c1.net)
    && c1.votes == c.votes + VotesOf(W, i, e)
  }

  lemma LettersStay(s: Env, b: multiset<Msg>, W: set<Name>, U: set<Name>, v: Name, i: Name, e: nat)
    requires Letters(s) && v !in W && v !in U
    requires (forall u :: u in W ==> s.ack(u, i, e) in b) && (forall u :: u in U ==> s.req(u, i, e) in b)
    ensures var net := b - multiset{s.req(v, i, e)} + multiset{s.ack(v, i, e)};
            (forall u :: u in W + {v} ==> s.ack(u, i, e) in net) && (forall u :: u in U ==> s.req(u, i, e) in net)
  {
    var net := b - multiset{s.req(v, i, e)} + multiset{s.ack(v, i, e)};
    forall u | u in W + {v}
      ensures s.ack(u, i, e) in net
    {
      assert LetterLaw(s, v, u, i, e);
    }
    forall u | u in U
      ensures s.req(u, i, e) in net
    {
      assert LetterLaw(s, v, u, i, e);
    }
  }

  lemma VotesOneMore(W: set<Name>, v: Name, i: Name, e: nat)
    ensures VotesOf(W + {v}, i, e) == VotesOf(W, i, e) + {Vote(v, e, i)}
  {
  }

  lemma GrantingOneMore(s: Env, c: Cluster, b: Cluster, W: set<Name>, U: set<Name>, v: Name, i: Name, e: nat)
    requires Letters(s) && Granting(s, c, b, W, i, e) && v !in W && v !in U && v in c.nodes
    requires forall u :: u in U ==> s.req(u, i, e) in b.net
    ensures Granting(s, c, AfterVote(s, b, v, i, e), W + {v}, i, e)
    ensures forall u :: u in U ==> s.req(u, i, e) in AfterVote(s, b, v, i, e).net
  {
    LettersStay(s, b.net, W, U, v, i, e);
    VotesOneMore(W, v, i, e);
  }

  lemma OneMoreGrants(reach: Reach, s: Env, c: Cluster, b: Cluster, W: set<Name>, U: set<Name>, v: Name, i: Name, e: nat)
    returns (c1: Cluster)
    requires Letters(s) && VoteLaws(reach, s) && reach(b) && (i == s.x || i == s.y) && v in s.V && v in c.nodes
    requires Granting(s, c, b, W, i, e) && v !in W && v !in U && CanVote(s.w, c, v, e) && s.req(v, i, e) in b.net
    requires forall u :: u in U ==> s.req(u, i, e) in b.net
    ensures reach(c1) && Granting(s, c, c1, W + {v}, i, e) && forall u :: u in U ==> s.req(u, i, e) in c1.net
  {
    assert VoteLaw(reach, s, b, v, i, e);
    c1 := AfterVote(s, b, v, i, e);
    GrantingOneMore(s, c, b, W, U, v, i, e);
  }

  ghost predicate AllSent(letter: Letter, c: Cluster, U: set<Name>, i: Name, e: nat) {
    forall v :: v in U ==> letter(v, i, e) in c.net
  }

  ghost predicate AllCanVote(s: Env, c: Cluster, W: set<Name>, e: nat) {
    W <= s.V && forall v :: v in W ==> v in c.nodes && CanVote(s.w, c, v, e)
  }

  /** Some voters have voted and the requests to others are on their way. */
  ghost function GrantingInv(reach: Reach, s: Env, c: Cluster, i: Name, e: nat): Progress {
    (done, todo, b) => reach(b) && Granting(s, c, b, done, i, e) && AllSent(s.req, b, todo, i, e) && AllCanVote(s, c, todo, e)
  }

  lemma GrantingGoesOn(reach: Reach, s: Env, c: Cluster, i: Name, e: nat, done: set<Name>, todo: set<Name>, v: Name, b: Cluster)
    requires Letters(s) && VoteLaws(reach, s) && (i == s.x || i == s.y)
    ensures GoesOn(GrantingInv(reach, s, c, i, e), done, todo, v, b)
  {
    var inv := GrantingInv(reach, s, c, i, e);
    if inv(done, todo, b) && v in todo && done !! todo {
      var c1 := OneMoreGrants(reach, s, c, b, done, todo - {v}, v, i, e);
      assert AllSent(s.req, c1, todo - {v}, i, e) && AllCanVote(s, c, todo - {v}, e);
      assert inv(done + {v}, todo - {v}, c1);
    }
  }

  lemma VotersGrant(reach: Reach, s: Env, c: Cluster, W: set<Name>, i: Name, e: nat) returns (c1: Cluster)
    requires Letters(s) && VoteLaws(reach, s) && reach(c) && (i == s.x || i == s.y)
    requires AllCanVote(s, c, W, e) && AllSent(s.req, c, W, i, e)
    ensures reach(c1) && Granting(s, c, c1, W, i, e)
  {
    var inv := GrantingInv(reach, s, c, i, e);
    forall done, todo, v, b
      ensures GoesOn(inv, done, todo, v, b)
    {
      GrantingGoesOn(reach, s, c, i, e, done, todo, v, b);
    }
    assert VotesOf({}, i, e) == {};
    c1 := OneByOne(inv, {}, W, c);
    assert {} + W == W;
  }

  type Progress = (set<Name>, set<Name>, Cluster) -> bool

  ghost predicate GoesOn(inv: Progress, done: set<Name>, todo: set<Name>, v: Name, b: Cluster) {
    inv(done, todo, b) && v in todo && done !! todo ==> exists c1 :: inv(done + {v}, todo - {v}, c1)
  }

  /** What can be done for one voter after the other can be done for all. */
  lemma {:induction false} OneByOne(inv: Progress, done: set<Name>, todo: set<Name>, b: Cluster) returns (c1: Cluster)
    requires inv(done, todo, b) && done !! todo && forall done, todo, v, b :: GoesOn(inv, done, todo, v, b)
    ensures inv(done + todo, {}, c1)
    decreases |todo|
  {
    if todo == {} {
      c1 := b;
      assert done + todo == done;
    } else {
      var v :| v in todo;
      assert GoesOn(inv, done, todo, v, b);
      var b1 :| inv(done + {v}, todo - {v}, b1);
      c1 := OneByOne(inv, done + {v}, todo - {v}, b1);
      assert done + {v} + (todo - {v}) == done + todo;
    }
  }

  /** c1 is c after i has counted as many votes as W has members. */
  ghost predicate Counting(c: Cluster, c1: Cluster, W: set<Name>, i: Name) {
    && i in c.nodes && c1.votes == c.votes && c1.wins == c.wins && c1.early == c.early
    && c1.nodes == c.nodes[i := c.nodes[i].(authCount := c.nodes[i].authCount + |W|)]
  }

  lemma CountingOneMore(s: Env, c: Cluster, b: Cluster, W: set<Name>, U: set<Name>, v: Name, i: Name, e: nat)
    requires Letters(s) && Counting(c, b, W, i) && v !in W && v !in U
    requires forall u :: u in U ==> s.ack(u, i, e) in b.net
    ensures Counting(c, AfterCount(s, b, v, i, e), W + {v}, i)
    ensures forall u :: u in U ==> s.ack(u, i, e) in AfterCount(s, b, v, i, e).net
  {
    forall u | u in U
      ensures s.ack(u, i, e) in AfterCount(s, b, v, i, e).net
    {
      assert LetterLaw(s, v, u, i, e);
    }
    assert |W + {v}| == |W| + 1;
  }

  lemma OneMoreCounts(reach: Reach, s: Env, c: Cluster, b: Cluster, W: set<Name>, U: set<Name>, v: Name, i: Name, e: nat)
    returns (c1: Cluster)
    requires Letters(s) && CountLaws(reach, s) && reach(b) && IsReplica(s, c, i) && v in s.V
    requires Counting(c, b, W, i) && v !in W && v !in U && s.ack(v, i, e) in b.net
    requires c.nodes[i].authEpoch <= e <= c.nodes[i].currentEpoch
    requires forall u :: u in U ==> s.ack(u, i, e) in b.net
    ensures reach(c1) && Counting(c, c1, W + {v}, i) && forall u :: u in U ==> s.ack(u, i, e) in c1.net
  {
    assert CountLaw(reach, s, b, v, i, e);
    c1 := AfterCount(s, b, v, i, e);
    CountingOneMore(s, c, b, W, U, v, i, e);
  }

  /** Some votes have been counted and others are on their way. */
  ghost function CountingInv(reach: Reach, s: Env, c: Cluster, i: Name, e: nat): Progress {
    (done, todo, b) => reach(b) && Counting(c, b, done, i) && AllSent(s.ack, b, todo, i, e) && todo <= s.V
  }

  lemma CountingGoesOn(reach: Reach, s: Env, c: Cluster, i: Name, e: nat, done: set<Name>, todo: set<Name>, v: Name, b: Cluster)
    requires Letters(s) && CountLaws(reach, s) && IsReplica(s, c, i) && c.nodes[i].authEpoch <= e <= c.nodes[i].currentEpoch
    ensures GoesOn(CountingInv(reach, s, c, i, e), done, todo, v, b)
  {
    var inv := CountingInv(reach, s, c, i, e);
    if inv(done, todo, b) && v in todo && done !! todo {
      var c1 := OneMoreCounts(reach, s, c, b, done, todo - {v}, v, i, e);
      assert inv(done + {v}, todo - {v}, c1);
    }
  }

  lemma VotesCount(reach: Reach, s: Env, c: Cluster, W: set<Name>, i: Name, e: nat) returns (c1: Cluster)
    requires Letters(s) && CountLaws(reach, s) && reach(c) && IsReplica(s, c, i) && W <= s.V
    requires c.nodes[i].authEpoch <= e <= c.nodes[i].currentEpoch && AllSent(s.ack, c, W, i, e)
    ensures reach(c1) && Counting(c, c1, W, i)
  {
    var inv := CountingInv(reach, s, c, i, e);
    forall done, todo, v, b
      ensures GoesOn(inv, done, todo, v, b)
    {
      CountingGoesOn(reach, s, c, i, e, done, todo, v, b);
    }
    c1 := OneByOne(inv, {}, W, c);
    assert {} + W == W;
  }

  // ---------------------------------------------------------------- elections

  lemma HasRequest(req: Letter, W: set<Name>, i: Name, e: nat, v: Name)
    requires v in W
    ensures req(v, i, e) in Requests(req, W, i, e)
  {
    assert req(v, i, e) in (set u | u in W :: req(u, i, e));
  }

  /** c1 is c after replica i has asked the voters of W in its next epoch, and they have voted for it. */
  ghost predicate Asked(s: Env, c: Cluster, c1: Cluster, i: Name, W: set<Name>)
    requires i in c.nodes
  {
    var e, k := c.nodes[i].currentEpoch + 1, c.nodes[i].authCount;
    && c1.nodes.Keys == c.nodes.Keys && c1.wins == c.wins && c1.nodes[i] == At(s.w, i, e, 0, e, k, true)
    && (forall j :: j in c.nodes && j != i ==> c1.nodes[j] == if j in W then At(s.w, j, e, e, 0, 0, false) else c.nodes[j])
    && (forall v :: v in W ==> s.ack(v, i, e) in c1.net)
    && c1.early == c.early[(i, e) := k] && c1.votes == c.votes + VotesOf(W, i, e)
  }

  lemma AskAndGrant(reach: Reach, s: Env, c: Cluster, i: Name, W: set<Name>) returns (c1: Cluster)
    requires Laws(reach, s) && reach(c) && IsReplica(s, c, i) && !c.nodes[i].authSent && W <= s.V <= c.nodes.Keys
    requires forall v :: v in W ==> CanVote(s.w, c, v, c.nodes[i].currentEpoch + 1)
    ensures reach(c1) && Asked(s, c, c1, i, W)
  {
    var e := c.nodes[i].currentEpoch + 1;
    assert AskLaw(reach, s, c, i, W);
    var b := AfterAsking(s, c, i, W);
    forall v | v in W
      ensures CanVote(s.w, b, v, e) && s.req(v, i, e) in b.net
    {
      HasRequest(s.req, W, i, e, v);
    }
    c1 := VotersGrant(reach, s, b, W, i, e);
  }

  /** An election: as many votes of the epoch as are missing for a quorum, and the replica wins. */
  lemma AskAndWin(reach: Reach, s: Env, c: Cluster, i: Name, W: set<Name>) returns (c1: Cluster)
    requires Laws(reach, s) && reach(c) && IsReplica(s, c, i) && !c.nodes[i].authSent && W <= s.V <= c.nodes.Keys
    requires forall v :: v in W ==> CanVote(s.w, c, v, c.nodes[i].currentEpoch + 1)
    requires c.nodes[i].authCount + |W| == Quorum(|s.V|)
    ensures var e, k := c.nodes[i].currentEpoch + 1, c.nodes[i].authCount;
            && reach(c1) && c1.nodes.Keys == c.nodes.Keys && c1.wins == c.wins + {(i, e)}
            && c1.early == c.early[(i, e) := k] && c1.votes == c.votes + VotesOf(W, i, e)
            && forall j :: j in c.nodes && j != i && j !in W ==> c1.nodes[j] == c.nodes[j]
  {
    var a := AskAndGrant(reach, s, c, i, W);
    c1 := CountAndWin(reach, s, a, i, W);
  }

  lemma CountAndWin(reach: Reach, s: Env, c: Cluster, i: Name, W: set<Name>) returns (c1: Cluster)
    requires Laws(reach, s) && reach(c) && IsReplica(s, c, i) && c.nodes[i].authSent && W <= s.V
    requires c.nodes[i].authEpoch == c.nodes[i].currentEpoch && c.nodes[i].authCount + |W| == Quorum(|s.V|)
    requires AllSent(s.ack, c, W, i, c.nodes[i].currentEpoch)
    ensures reach(c1) && AfterWin(c, c1.(net := c.net), i)
  {
    var b := VotesCount(reach, s, c, W, i, c.nodes[i].currentEpoch);
    assert WinLaw(reach, s, b, i);
    c1 :| reach(c1) && AfterWin(b, c1, i);
  }

  /** None of the votes is of the epoch. */
  ghost predicate NotIn(e: nat, votes: set<Vote>) {
    forall v :: v in votes ==> v.epoch != e
  }

  /** Before epoch 2: x has counted k votes, and nobody has voted in epoch 2. */
  ghost predicate Late(s: Env, c: Cluster, k: nat) {
    && c.nodes.Keys == s.V + {s.x, s.y} && c.wins == {} && NotIn(2, c.votes) && AllCanVote(s, c, s.V, 2)
    && c.nodes[s.x] == At(s.w, s.x, 1, 0, 1, k, false) && c.nodes[s.y] == At(s.w, s.y, 0, 0, 0, 0, false)
  }

  lemma GivesUp(s: Env, c: Cluster, a: Cluster, S: set<Name>)
    requires Letters(s) && Fresh(s, c) && S <= s.V && s.x in c.nodes && Asked(s, c, a, s.x, S)
    ensures Late(s, AfterRetry(a, s.x), 0)
  {
    var c1 := AfterRetry(a, s.x);
    FirstVotes(S, s.x);
    assert c1.nodes[s.x] == At(s.w, s.x, 1, 0, 1, 0, false) && c1.nodes[s.y] == At(s.w, s.y, 0, 0, 0, 0, false);
    forall v | v in s.V
      ensures CanVote(s.w, c1, v, 2)
    {
      assert c1.nodes[v] == if v in S then At(s.w, v, 1, 1, 0, 0, false) else At(s.w, v, 0, 0, 0, 0, false);
    }
  }

  lemma FirstVotes(S: set<Name>, i: Name)
    ensures NotIn(2, {} + VotesOf(S, i, 1))
  {
  }

  lemma LateOnesCount(s: Env, c: Cluster, c1: Cluster, S: set<Name>)
    requires Letters(s) && Late(s, c, 0) && Counting(c, c1, S, s.x)
    ensures Late(s, c1, |S|)
  {
  }

  /** Replica x asks for votes in epoch 1 and gives up. The voters of S have voted for it, and the votes
      arrive after the count was cleared, before the next election. */
  lemma LateVotes(reach: Reach, s: Env, c: Cluster, S: set<Name>) returns (c1: Cluster)
    requires Laws(reach, s) && reach(c) && Fresh(s, c) && S <= s.V
    ensures reach(c1) && Late(s, c1, |S|)
  {
    var a := AskAndGrant(reach, s, c, s.x, S);
    assert RetryLaw(reach, a, s.x);
    GivesUp(s, c, a, S);
    c1 := VotesCount(reach, s, AfterRetry(a, s.x), S, s.x, 1);
    LateOnesCount(s, AfterRetry(a, s.x), c1, S);
  }

  ghost predicate Fresh(s: Env, c: Cluster) {
    && c.nodes.Keys == s.V + {s.x, s.y} && c.wins == {} && c.votes == {} && c.early == map[]
    && forall i :: i in c.nodes ==> c.nodes[i] == At(s.w, i, 0, 0, 0, 0, false)
  }

  lemma VotersAre(votes: set<Vote>, c: Cluster, W: set<Name>, i: Name, e: nat)
    requires c.votes == votes + VotesOf(W, i, e) && NotIn(e, votes)
    ensures Voters(c, i, e) == W
  {
    forall v | v in W
      ensures v in Voters(c, i, e)
    {
      assert Vote(v, e, i) in c.votes;
    }
  }

  lemma WinFromLate(reach: Reach, s: Env, c: Cluster, k: nat, W: set<Name>) returns (c1: Cluster)
    requires Laws(reach, s) && reach(c) && Late(s, c, k) && W <= s.V && k + |W| == Quorum(|s.V|)
    ensures reach(c1) && c1.nodes.Keys == c.nodes.Keys && c1.wins == {(s.x, 2)} && Voters(c1, s.x, 2) == W
    ensures (s.x, 2) in c1.early && c1.early[(s.x, 2)] == k
    ensures c1.nodes[s.y] == c.nodes[s.y] && AllCanVote(s, c1, s.V - W, 2)
  {
    c1 := AskAndWin(reach, s, c, s.x, W);
    VotersAre(c.votes, c1, W, s.x, 2);
  }

  /** So x wins epoch 2 with as many votes of epoch 2 less than a quorum as came late. */
  lemma StaleWin(reach: Reach, s: Env, c: Cluster, S: set<Name>, W: set<Name>) returns (c1: Cluster)
    requires Laws(reach, s) && reach(c) && Fresh(s, c) && S <= s.V && W <= s.V && |S| + |W| == Quorum(|s.V|)
    ensures reach(c1) && c1.nodes.Keys == c.nodes.Keys && c1.wins == {(s.x, 2)} && Voters(c1, s.x, 2) == W
    ensures (s.x, 2) in c1.early && c1.early[(s.x, 2)] == |S|
    ensures c1.nodes[s.y] == At(s.w, s.y, 0, 0, 0, 0, false) && AllCanVote(s, c1, s.V - W, 2)
  {
    var b := LateVotes(reach, s, c, S);
    c1 := WinFromLate(reach, s, b, |S|, W);
  }

  /** Replica y goes through epoch 1 without a vote, and wins epoch 2 with a quorum of votes. */
  lemma HonestWin(reach: Reach, s: Env, c: Cluster, W: set<Name>) returns (c1: Cluster)
    requires Laws(reach, s) && reach(c) && c.nodes.Keys == s.V + {s.x, s.y} && W <= s.V && |W| == Quorum(|s.V|)
    requires c.nodes[s.y] == At(s.w, s.y, 0, 0, 0, 0, false) && forall v :: v in W ==> CanVote(s.w, c, v, 2)
    ensures reach(c1) && c1.wins == c.wins + {(s.y, 2)} && c1.early == c.early[(s.y, 1) := 0][(s.y, 2) := 0]
  {
    var a := AskAndGrant(reach, s, c, s.y, {});
    assert RetryLaw(reach, a, s.y);
    c1 := AskAndWin(reach, s, AfterRetry(a, s.y), s.y, W);
  }

  // ---------------------------------------------------------------- two winners

  lemma {:induction false} UpperBound(V: set<Name>) returns (b: Name)
    ensures forall v :: v in V ==> v < b
    decreases |V|
  {
    if V == {} {
      b := 0;
    } else {
      var v :| v in V;
      var b1 := UpperBound(V - {v});
      b := if v < b1 then b1 else v + 1;
      assert forall u :: u in V ==> u == v || u in V - {v};
    }
  }

  lemma {:induction false} SubsetOfSize(V: set<Name>, k: nat) returns (W: set<Name>)
    requires k <= |V|
    ensures W <= V && |W| == k
    decreases k
  {
    if k == 0 {
      W := {};
    } else {
      var v :| v in V;
      W := SubsetOfSize(V - {v}, k - 1);
      W := W + {v};
    }
  }

  lemma FreshShard(V: set<Name>) returns (w: View, m: Name, x: Name, y: Name, c: Cluster)
    requires V != {}
    ensures Shard(w, V, m, x, y) && Reaches(V, c) && Fresh(EnvOf(w, V, m, x, y), c)
  {
    m :| m in V;
    x := UpperBound(V);
    y := x + 1;
    w := View(map i | i in V + {x, y} :: if i in V then Master() else Slave(m), map j | j in V :: j);
    c := Cluster(map i | i in V + {x, y} :: At(w, i, 0, 0, 0, 0, false), multiset{}, {}, {}, map[], map[]);
    FreshIsInit(EnvOf(w, V, m, x, y), m, c);
    StartReaches(V, c);
  }

  lemma FreshIsInit(s: Env, m: Name, c: Cluster)
    requires Shard(s.w, s.V, m, s.x, s.y) && Fresh(s, c) && c.net == multiset{}
    ensures Init(c)
  {
    forall i | i in c.nodes
      ensures var n := c.nodes[i];
              && n.me == i && i in n.peers && n.currentEpoch == n.lastVoteEpoch == n.authEpoch == n.authCount == 0 && !n.authSent
              && forall p :: p in n.peers ==> n.peers[p].configEpoch == 0
    {
      assert c.nodes[i] == At(s.w, i, 0, 0, 0, 0, false);
      PeersAreFresh(s.w, s.V, m, s.x, s.y);
    }
  }

  lemma PeersAreFresh(w: View, V: set<Name>, m: Name, x: Name, y: Name)
    requires Shard(w, V, m, x, y)
    ensures forall p :: p in w.peers ==> w.peers[p].configEpoch == 0
  {
  }

  lemma StartReaches(V: set<Name>, c: Cluster)
    requires Init(c)
    ensures Reaches(V, c)
  {
    assert RunTo(V, [c], [], c);
  }

  /** For every set of voters there is a run in which two replicas win the same epoch, with counts at the
      starts of their elections that add up to exactly the least that TwoWinsNeedStaleVotes admits. */
  lemma StaleVotesElectTwo(V: set<Name>) returns (states: seq<Cluster>, steps: seq<Step>, x: Name, y: Name)
    requires V != {}
    ensures Run(V, states, steps) && x != y
    ensures var c := states[|steps|];
            && (x, 2) in c.wins && (y, 2) in c.wins && (x, 2) in c.early && (y, 2) in c.early
            && c.early[(x, 2)] + c.early[(y, 2)] == 2 - |V| % 2
  {
    var w, m, c;
    w, m, x, y, c := FreshShard(V);
    LawsHold(w, V, m, x, y);
    c := TwoWins(ReachOf(V), EnvOf(w, V, m, x, y), c);
    states, steps :| RunTo(V, states, steps, c);
  }

  lemma TwoWins(reach: Reach, s: Env, c: Cluster) returns (c1: Cluster)
    requires Laws(reach, s) && reach(c) && Fresh(s, c) && s.V != {}
    ensures reach(c1) && (s.x, 2) in c1.wins && (s.y, 2) in c1.wins && (s.x, 2) in c1.early && (s.y, 2) in c1.early
    ensures c1.early[(s.x, 2)] + c1.early[(s.y, 2)] == 2 - |s.V| % 2
  {
    var k := 2 - |s.V| % 2;
    assert |s.V| >= 1;
    var S := SubsetOfSize(s.V, k);
    var W := SubsetOfSize(s.V, Quorum(|s.V|) - k);
    var b := StaleWin(reach, s, c, S, W);
    assert |s.V - W| == |s.V| - |W| == Quorum(|s.V|);
    c1 := HonestWin(reach, s, b, s.V - W);
  }
}
