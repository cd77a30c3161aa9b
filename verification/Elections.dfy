/** Election safety: a master votes at most once per epoch, so two replicas never both hold a majority
    of votes of one epoch. A replica that wins has a quorum of voters less the votes it had counted before
    it started the election, so two replicas win one epoch only with stale votes, and never without. */
module Elections {
  import opened Cluster

  ghost function Voters(c: Cluster, i: Name, e: nat): set<Name> {
    set v | v in c.votes && v.candidate == i && v.epoch == e :: v.voter
  }

  /** A vote is by a member of V, for an epoch up to its last vote, and unique in its epoch. */
  ghost predicate VotesOk(V: set<Name>, c: Cluster) {
    && (forall v :: v in c.votes ==> v.voter in V && v.voter in c.nodes && v.epoch <= c.nodes[v.voter].lastVoteEpoch)
    && (forall v, w :: v in c.votes && w in c.votes && v.voter == w.voter && v.epoch == w.epoch ==> v.candidate == w.candidate)
  }

  /** Requests, and the votes for them, are not from elections later than the candidate's last one. */
  ghost predicate CandidatesOk(c: Cluster) {
    && (forall v :: v in c.votes ==> v.candidate in c.nodes && v.epoch <= c.nodes[v.candidate].authEpoch)
    && (forall m :: m in c.net && m.kind.AuthRequest? ==>
                      m.sender in c.nodes && m.currentEpoch <= c.nodes[m.sender].authEpoch)
  }

  predicate SameVote(m: Msg, w: Msg) {
    m.kind == w.kind == AuthAck && m.sender == w.sender && m.currentEpoch == w.currentEpoch
  }

  /** An ACK in flight is the only one of its vote. */
  ghost predicate AcksOk(c: Cluster) {
    && (forall m :: m in c.net && m.kind == AuthAck ==> c.net[m] == 1 && Vote(m.sender, m.currentEpoch, m.to) in c.votes)
    && (forall m, w :: m in c.net && w in c.net && SameVote(m, w) ==> m == w)
  }

  /** What node i has counted in its running election is what it had counted before, and votes for it
      in that election. */
  ghost predicate CountOk(c: Cluster, i: Name)
    requires i in c.nodes
  {
    var n := c.nodes[i];
    && i in c.counted && (i, n.authEpoch) in c.early && n.authCount == c.early[(i, n.authEpoch)] + |c.counted[i]|
    && (forall v :: v in c.counted[i] ==> Vote(v, n.authEpoch, i) in c.votes)
    && (forall m :: m in c.net && m.kind == AuthAck && m.to == i && m.currentEpoch == n.authEpoch ==> m.sender !in c.counted[i])
  }

  ghost predicate CountsOk(c: Cluster) {
    forall i :: i in c.nodes && c.nodes[i].authSent ==> CountOk(c, i)
  }

  /** A win has a quorum of voters, but for what was counted before its election. */
  ghost predicate WinOk(V: set<Name>, c: Cluster, w: (Name, nat)) {
    && w.0 in c.nodes && w.1 <= c.nodes[w.0].authEpoch
    && w in c.early && |Voters(c, w.0, w.1)| + c.early[w] >= Quorum(|V|)
  }

  ghost predicate WinsOk(V: set<Name>, c: Cluster) {
    forall w :: w in c.wins ==> WinOk(V, c, w)
  }

  /** What every run keeps about votes. */
  ghost predicate BallotInv(V: set<Name>, c: Cluster) {
    VotesOk(V, c) && CandidatesOk(c) && AcksOk(c)
  }

  /** What every run keeps about votes and what is counted. */
  ghost predicate Inv(V: set<Name>, c: Cluster) {
    BallotInv(V, c) && CountsOk(c) && WinsOk(V, c)
  }

  // ---------------------------------------------------------------- what each step does to votes

  /** Nodes outside `changed` keep what concerns votes; nobody forgets its last vote or election. */
  ghost predicate SameBallots(c: Cluster, c1: Cluster, changed: set<Name>) {
    && c1.nodes.Keys == c.nodes.Keys
    && (forall i :: i in c.nodes && i !in changed ==>
          && c1.nodes[i].lastVoteEpoch == c.nodes[i].lastVoteEpoch && c1.nodes[i].authEpoch == c.nodes[i].authEpoch
          && (c1.nodes[i].authSent ==> c.nodes[i].authSent && c1.nodes[i].authCount == c.nodes[i].authCount))
  }

  ghost predicate FrameEffect(c: Cluster, c1: Cluster) {
    && SameBallots(c, c1, {}) && c1.votes == c.votes && c1.wins == c.wins && c1.counted == c.counted && c1.early == c.early
    && (forall m :: m in c1.net && (m.kind.AuthRequest? || m.kind.AuthAck?) ==> m in c.net && c1.net[m] <= c.net[m])
  }

  ghost predicate AckEffect(c: Cluster, c1: Cluster, m: Msg) {
    && m in c.net && m.to in c.nodes && m.kind == AuthAck && m.currentEpoch >= c.nodes[m.to].authEpoch
    && SameBallots(c, c1, {m.to}) && c1.votes == c.votes && c1.wins == c.wins && c1.early == c.early
    && c1.nodes[m.to].lastVoteEpoch == c.nodes[m.to].lastVoteEpoch && c1.nodes[m.to].authEpoch == c.nodes[m.to].authEpoch
    && c1.nodes[m.to].authSent == c.nodes[m.to].authSent && c1.nodes[m.to].authCount == c.nodes[m.to].authCount + 1
    && c1.net == c.net - multiset{m} && c1.counted == Count(c.counted, m.to, m.sender)
  }

  ghost predicate GrantEffect(c: Cluster, c1: Cluster, m: Msg, ack: Msg) {
    && m in c.net && m.kind.AuthRequest? && m.to in c.nodes && SameBallots(c, c1, {m.to})
    && c.nodes[m.to].lastVoteEpoch < m.currentEpoch
    && c1.nodes[m.to].lastVoteEpoch == m.currentEpoch && c1.nodes[m.to].authEpoch == c.nodes[m.to].authEpoch
    && c1.nodes[m.to].authSent == c.nodes[m.to].authSent && c1.nodes[m.to].authCount == c.nodes[m.to].authCount
    && ack.kind == AuthAck && ack.to == m.sender && ack.sender == m.to && ack.currentEpoch == m.currentEpoch
    && c1.net == c.net - multiset{m} + multiset{ack} && c1.votes == c.votes + {Vote(m.to, m.currentEpoch, m.sender)}
    && c1.wins == c.wins && c1.counted == c.counted && c1.early == c.early
  }

  ghost predicate ElectEffect(c: Cluster, c1: Cluster, i: Name, requests: multiset<Msg>) {
    && i in c.nodes && SameBallots(c, c1, {i}) && c1.nodes[i].authEpoch > c.nodes[i].authEpoch
    && c1.nodes[i].lastVoteEpoch == c.nodes[i].lastVoteEpoch && c1.nodes[i].authCount == c.nodes[i].authCount
    && (forall m :: m in requests ==> m.kind.AuthRequest? && m.sender == i && m.currentEpoch == c1.nodes[i].authEpoch)
    && c1.net == c.net + requests && c1.votes == c.votes && c1.wins == c.wins && c1.counted == c.counted[i := {}]
    && c1.early == c.early[(i, c1.nodes[i].authEpoch) := c.nodes[i].authCount]
  }

  ghost predicate PromoteEffect(V: set<Name>, c: Cluster, c1: Cluster, i: Name) {
    && i in c.nodes && SameBallots(c, c1, {}) && c.nodes[i].authSent && c.nodes[i].authCount >= Quorum(|V|)
    && c1.net == c.net && c1.votes == c.votes && c1.counted == c.counted && c1.early == c.early
    && c1.wins == c.wins + {(i, c.nodes[i].authEpoch)}
  }

  /** A start of an election with votes already counted. */
  ghost predicate StaleStart(c: Cluster, st: Step) {
    st.Elect? && st.node in c.nodes && c.nodes[st.node].authCount > 0
  }

  ghost predicate Effect(V: set<Name>, c: Cluster, c1: Cluster, st: Step) {
    || FrameEffect(c, c1)
    || (exists m: Msg :: AckEffect(c, c1, m))
    || (exists m: Msg, ack: Msg :: m.to in V && GrantEffect(c, c1, m, ack))
    || (st.Elect? && ElectEffect(c, c1, st.node, st.requests))
    || (st.Promote? && PromoteEffect(V, c, c1, st.node))
  }

  lemma ProcessHasEffect(c: Cluster, c1: Cluster, m: Msg, n1: Node)
    requires EpochsBounded(c) && m in c.net && m.to in c.nodes && ProcessStep(c, c1, m, n1)
    ensures FrameEffect(c, c1) || AckEffect(c, c1, m)
  {
    ProcessingKeepsBound(m.to, c.nodes[m.to], m, n1);
    BallotsGiveEffect(c, c1, m, n1);
  }

  lemma BallotsGiveEffect(c: Cluster, c1: Cluster, m: Msg, n1: Node)
    requires m in c.net && m.to in c.nodes
    requires c1 == c.(nodes := c.nodes[m.to := n1], net := c.net - multiset{m},
                      counted := if n1.authCount > c.nodes[m.to].authCount then Count(c.counted, m.to, m.sender) else c.counted)
    requires var n := c.nodes[m.to];
             && n1.authEpoch == n.authEpoch && n1.lastVoteEpoch == n.lastVoteEpoch && n1.authSent == n.authSent
             && (n1.authCount == n.authCount || (m.kind == AuthAck && m.currentEpoch >= n.authEpoch && n1.authCount == n.authCount + 1))
    ensures FrameEffect(c, c1) || AckEffect(c, c1, m)
  {
    if n1.authCount == c.nodes[m.to].authCount {
      assert FrameEffect(c, c1);
    } else {
      assert AckEffect(c, c1, m);
    }
  }

  lemma GrantHasEffect(c: Cluster, c1: Cluster, m: Msg, n1: Node, ack: Msg)
    requires EpochsBounded(c) && m in c.net && m.to in c.nodes && GrantStep(c, c1, m, n1, ack)
    ensures GrantEffect(c, c1, m, ack)
  {
    VotingKeepsBound(m.to, c.nodes[m.to], m, n1, ack);
  }

  lemma ReceiveHasEffect(V: set<Name>, c: Cluster, c1: Cluster, m: Msg)
    requires EpochsBounded(c) && Next(V, c, c1, Receive(m))
    ensures Effect(V, c, c1, Receive(m))
  {
    if n1 :| ProcessStep(c, c1, m, n1) {
      ProcessHasEffect(c, c1, m, n1);
    } else {
      var n1, ack :| GrantStep(c, c1, m, n1, ack);
      GrantHasEffect(c, c1, m, n1, ack);
    }
  }

  lemma LocalHasEffect(c: Cluster, c1: Cluster, i: Name, n1: Node)
    requires i in c.nodes && (LocalStep(c.nodes[i], n1) || n1 == StartAttempt(c.nodes[i]))
    requires c1 == c.(nodes := c.nodes[i := n1])
    ensures FrameEffect(c, c1)
  {
  }

  lemma SendHasEffect(c: Cluster, c1: Cluster, i: Name, m: Msg)
    requires i in c.nodes && MaySend(c.nodes[i], m) && c1 == c.(net := c.net + multiset{m})
    ensures FrameEffect(c, c1)
  {
  }

  lemma StepHasEffect(V: set<Name>, c: Cluster, c1: Cluster, st: Step)
    requires EpochsBounded(c) && Next(V, c, c1, st)
    ensures Effect(V, c, c1, st)
  {
    match st
    case Local(i) =>
      var n1 :| LocalStep(c.nodes[i], n1) && c1 == c.(nodes := c.nodes[i := n1]);
      LocalHasEffect(c, c1, i, n1);
    case Send(i, m) => SendHasEffect(c, c1, i, m);
    case Lose(m) => assert FrameEffect(c, c1);
    case Receive(m) => ReceiveHasEffect(V, c, c1, m);
    case Attempt(i) => LocalHasEffect(c, c1, i, StartAttempt(c.nodes[i]));
    case Elect(i, requests) => ElectHasEffect(c, c1, i, requests);
    case Promote(i) => PromoteHasEffect(V, c, c1, i);
  }

  lemma ElectHasEffect(c: Cluster, c1: Cluster, i: Name, requests: multiset<Msg>)
    requires EpochsBounded(c) && ElectStep(c, c1, i, requests)
    ensures ElectEffect(c, c1, i, requests)
  {
    assert NodeOk(i, c.nodes[i]);
  }

  lemma PromoteHasEffect(V: set<Name>, c: Cluster, c1: Cluster, i: Name)
    requires PromoteStep(V, c, c1, i)
    ensures PromoteEffect(V, c, c1, i)
  {
  }

  // ---------------------------------------------------------------- the invariant

  lemma FrameKeepsBallots(V: set<Name>, c: Cluster, c1: Cluster)
    requires BallotInv(V, c) && FrameEffect(c, c1)
    ensures BallotInv(V, c1)
  {
  }

  lemma FrameKeepsCounts(V: set<Name>, c: Cluster, c1: Cluster)
    requires Inv(V, c) && FrameEffect(c, c1)
    ensures CountsOk(c1) && WinsOk(V, c1)
  {
    WinsKept(V, c, c1);
    forall i | i in c1.nodes && c1.nodes[i].authSent
      ensures CountOk(c1, i)
    {
      assert CountOk(c, i);
    }
  }

  /** Votes only accumulate and elections only get later, so wins stay justified. */
  lemma WinsKept(V: set<Name>, c: Cluster, c1: Cluster)
    requires WinsOk(V, c) && c.votes <= c1.votes && c1.wins == c.wins && c.nodes.Keys <= c1.nodes.Keys
    requires forall w :: w in c.wins && w in c.early ==> w in c1.early && c1.early[w] == c.early[w]
    requires forall i :: i in c.nodes ==> c.nodes[i].authEpoch <= c1.nodes[i].authEpoch
    ensures WinsOk(V, c1)
  {
    forall w | w in c1.wins
      ensures WinOk(V, c1, w)
    {
      assert WinOk(V, c, w);
      SubsetSize(Voters(c, w.0, w.1), Voters(c1, w.0, w.1));
    }
  }

  /** An accepted ACK is a new vote of the running election. */
  lemma AckIsNewVote(V: set<Name>, c: Cluster, c1: Cluster, m: Msg)
    requires Inv(V, c) && AckEffect(c, c1, m) && c.nodes[m.to].authSent
    ensures CountOk(c1, m.to)
  {
    var i := m.to;
    assert CountOk(c, i);
    assert m.currentEpoch == c.nodes[i].authEpoch by {
      assert Vote(m.sender, m.currentEpoch, i) in c.votes;
    }
    assert c1.counted[i] == c.counted[i] + {m.sender} && m.sender !in c.counted[i];
    forall w | w in c1.net && w.kind == AuthAck && w.to == i && w.currentEpoch == c.nodes[i].authEpoch
      ensures w.sender !in c1.counted[i]
    {
      assert c.net[m] == 1 && w in c.net && w != m;
      assert w.sender == m.sender ==> SameVote(m, w);
    }
  }

  lemma AckKeepsBallots(V: set<Name>, c: Cluster, c1: Cluster, m: Msg)
    requires BallotInv(V, c) && AckEffect(c, c1, m)
    ensures BallotInv(V, c1)
  {
    assert forall w :: w in c1.net ==> w in c.net && c1.net[w] <= c.net[w];
  }

  lemma AckKeepsCounts(V: set<Name>, c: Cluster, c1: Cluster, m: Msg)
    requires Inv(V, c) && AckEffect(c, c1, m)
    ensures CountsOk(c1) && WinsOk(V, c1)
  {
    WinsKept(V, c, c1);
    assert forall w :: w in c1.net ==> w in c.net;
    forall j | j in c1.nodes && c1.nodes[j].authSent
      ensures CountOk(c1, j)
    {
      if j == m.to {
        AckIsNewVote(V, c, c1, m);
      } else {
        assert CountOk(c, j);
      }
    }
  }

  /** A vote is granted only in an epoch in which the voter has not voted. */
  lemma GrantKeepsBallots(V: set<Name>, c: Cluster, c1: Cluster, m: Msg, ack: Msg)
    requires BallotInv(V, c) && GrantEffect(c, c1, m, ack) && m.to in V
    ensures BallotInv(V, c1)
  {
    assert forall v :: v in c.votes && v.voter == m.to ==> v.epoch < m.currentEpoch;
    assert VotesOk(V, c1) && CandidatesOk(c1);
    GrantKeepsAcks(V, c, c1, m, ack);
  }

  lemma GrantKeepsAcks(V: set<Name>, c: Cluster, c1: Cluster, m: Msg, ack: Msg)
    requires BallotInv(V, c) && GrantEffect(c, c1, m, ack)
    ensures AcksOk(c1)
  {
    forall w | w in c.net && w.kind == AuthAck && w.sender == m.to
      ensures w.currentEpoch != ack.currentEpoch
    {
      assert Vote(w.sender, w.currentEpoch, w.to) in c.votes;
    }
    assert forall w :: w in c1.net ==> w == ack || (w in c.net && c1.net[w] <= c.net[w]);
  }

  lemma GrantKeepsCounts(V: set<Name>, c: Cluster, c1: Cluster, m: Msg, ack: Msg)
    requires Inv(V, c) && GrantEffect(c, c1, m, ack)
    ensures CountsOk(c1) && WinsOk(V, c1)
  {
    WinsKept(V, c, c1);
    forall j | j in c1.nodes && c1.nodes[j].authSent
      ensures CountOk(c1, j)
    {
      assert CountOk(c, j);
      assert j == ack.to && ack.currentEpoch == c.nodes[j].authEpoch && m.to in c.counted[j] ==>
        Vote(m.to, m.currentEpoch, j) in c.votes;
    }
  }

  lemma ElectKeepsBallots(V: set<Name>, c: Cluster, c1: Cluster, i: Name, requests: multiset<Msg>)
    requires BallotInv(V, c) && ElectEffect(c, c1, i, requests)
    ensures BallotInv(V, c1)
  {
    assert forall m :: m in c1.net ==> m in requests || (m in c.net && (m.kind == AuthAck ==> c1.net[m] == c.net[m]));
  }

  /** The election starts with what was counted before, which is kept, and with no vote of its own. */
  lemma ElectKeepsCounts(V: set<Name>, c: Cluster, c1: Cluster, i: Name, requests: multiset<Msg>)
    requires Inv(V, c) && ElectEffect(c, c1, i, requests)
    ensures CountsOk(c1) && WinsOk(V, c1)
  {
    forall w | w in c.wins
      ensures w != (i, c1.nodes[i].authEpoch)
    {
      assert WinOk(V, c, w);
    }
    WinsKept(V, c, c1);
    forall j | j in c1.nodes && c1.nodes[j].authSent
      ensures CountOk(c1, j)
    {
      if j != i {
        assert CountOk(c, j);
      }
    }
  }

  lemma PromoteKeepsBallots(V: set<Name>, c: Cluster, c1: Cluster, i: Name)
    requires BallotInv(V, c) && PromoteEffect(V, c, c1, i)
    ensures BallotInv(V, c1)
  {
  }

  /** A replica with a quorum of counted votes has that many voters, but for what it had counted before. */
  lemma PromoteKeepsCounts(V: set<Name>, c: Cluster, c1: Cluster, i: Name)
    requires Inv(V, c) && PromoteEffect(V, c, c1, i)
    ensures CountsOk(c1) && WinsOk(V, c1)
  {
    var win := (i, c.nodes[i].authEpoch);
    assert WinOk(V, c1, win) by {
      assert CountOk(c, i);
      SubsetSize(c.counted[i], Voters(c1, i, win.1));
    }
    var rest := c1.(wins := c.wins);
    WinsKept(V, c, rest);
    forall w | w in c1.wins
      ensures WinOk(V, c1, w)
    {
      assert w != win ==> WinOk(V, rest, w);
      assert Voters(c1, w.0, w.1) == Voters(rest, w.0, w.1);
    }
    forall j | j in c1.nodes && c1.nodes[j].authSent
      ensures CountOk(c1, j)
    {
      assert CountOk(c, j);
    }
  }

  // ---------------------------------------------------------------- whole runs

  lemma BallotStep(V: set<Name>, c: Cluster, c1: Cluster, st: Step)
    requires BallotInv(V, c) && Effect(V, c, c1, st)
    ensures BallotInv(V, c1)
  {
    if FrameEffect(c, c1) {
      FrameKeepsBallots(V, c, c1);
    } else if m :| AckEffect(c, c1, m) {
      AckKeepsBallots(V, c, c1, m);
    } else if m: Msg, ack: Msg :| m.to in V && GrantEffect(c, c1, m, ack) {
      GrantKeepsBallots(V, c, c1, m, ack);
    } else if st.Elect? {
      ElectKeepsBallots(V, c, c1, st.node, st.requests);
    } else {
      PromoteKeepsBallots(V, c, c1, st.node);
    }
  }

  lemma CountStep(V: set<Name>, c: Cluster, c1: Cluster, st: Step)
    requires Inv(V, c) && Effect(V, c, c1, st)
    ensures CountsOk(c1) && WinsOk(V, c1)
  {
    if FrameEffect(c, c1) {
      FrameKeepsCounts(V, c, c1);
    } else if m :| AckEffect(c, c1, m) {
      AckKeepsCounts(V, c, c1, m);
    } else if m: Msg, ack: Msg :| m.to in V && GrantEffect(c, c1, m, ack) {
      GrantKeepsCounts(V, c, c1, m, ack);
    } else if st.Elect? {
      ElectKeepsCounts(V, c, c1, st.node, st.requests);
    } else {
      PromoteKeepsCounts(V, c, c1, st.node);
    }
  }

  lemma StepKeepsInv(V: set<Name>, c: Cluster, c1: Cluster, st: Step)
    requires EpochsBounded(c) && Inv(V, c) && Next(V, c, c1, st)
    ensures Inv(V, c1)
  {
    StepHasEffect(V, c, c1, st);
    BallotStep(V, c, c1, st);
    CountStep(V, c, c1, st);
  }

  lemma {:induction false} InvHolds(V: set<Name>, states: seq<Cluster>, steps: seq<Step>, k: nat)
    requires Run(V, states, steps) && k < |states|
    ensures Inv(V, states[k])
  {
    if k > 0 {
      InvHolds(V, states, steps, k - 1);
      EpochBound(V, states, steps, k - 1);
      StepKeepsInv(V, states[k - 1], states[k], steps[k - 1]);
    }
  }

  /** Two majorities have a member in common. */
  lemma MajoritiesMeet(V: set<Name>, a: set<Name>, b: set<Name>)
    requires a <= V && b <= V && |a| >= Quorum(|V|) && |b| >= Quorum(|V|)
    ensures exists v :: v in a && v in b
  {
    if forall v :: v in a ==> v !in b {
      assert a !! b;
      SubsetSize(a + b, V);
    }
  }

  lemma MajorityIsUnique(V: set<Name>, c: Cluster, i: Name, j: Name, e: nat)
    requires VotesOk(V, c)
    requires |Voters(c, i, e)| >= Quorum(|V|) && |Voters(c, j, e)| >= Quorum(|V|)
    ensures i == j
  {
    MajoritiesMeet(V, Voters(c, i, e), Voters(c, j, e));
    var v :| v in Voters(c, i, e) && v in Voters(c, j, e);
    assert Vote(v, e, i) in c.votes && Vote(v, e, j) in c.votes;
  }

  /** In every run, whatever is counted: a master votes for one candidate per epoch, and no two
      candidates hold a majority of the votes of one epoch. */
  lemma VoteSafety(V: set<Name>, states: seq<Cluster>, steps: seq<Step>, k: nat)
    requires Run(V, states, steps) && k < |states|
    ensures forall v, w :: v in states[k].votes && w in states[k].votes && v.voter == w.voter && v.epoch == w.epoch ==> v == w
    ensures forall i, j, e :: |Voters(states[k], i, e)| >= Quorum(|V|) && |Voters(states[k], j, e)| >= Quorum(|V|) ==> i == j
  {
    InvHolds(V, states, steps, k);
    forall i, j, e | |Voters(states[k], i, e)| >= Quorum(|V|) && |Voters(states[k], j, e)| >= Quorum(|V|)
      ensures i == j
    {
      MajorityIsUnique(V, states[k], i, j, e);
    }
  }

  /** In every run, whatever is counted: a running election has counted exactly the votes that were
      counted before it started, and votes for the replica in the epoch of the election, each voter once. */
  lemma CountIsExact(V: set<Name>, states: seq<Cluster>, steps: seq<Step>, k: nat, i: Name)
    requires Run(V, states, steps) && k < |states| && i in states[k].nodes && states[k].nodes[i].authSent
    ensures var c, n := states[k], states[k].nodes[i];
            && (i, n.authEpoch) in c.early && i in c.counted && c.counted[i] <= Voters(c, i, n.authEpoch)
            && n.authCount == c.early[(i, n.authEpoch)] + |c.counted[i]|
  {
    InvHolds(V, states, steps, k);
    assert CountOk(states[k], i);
  }

  /** In every run, for every V: a win has at least a quorum of voters less what was counted before its
      election started. */
  lemma WinsHaveVoters(V: set<Name>, states: seq<Cluster>, steps: seq<Step>, k: nat, w: (Name, nat))
    requires Run(V, states, steps) && k < |states| && w in states[k].wins
    ensures w in states[k].early
    ensures |Voters(states[k], w.0, w.1)| >= Quorum(|V|) - states[k].early[w]
  {
    InvHolds(V, states, steps, k);
    assert WinOk(V, states[k], w);
  }

  /** What two candidates got of one epoch is at most what there is. */
  lemma VotersAreShared(V: set<Name>, c: Cluster, i: Name, j: Name, e: nat)
    requires VotesOk(V, c) && i != j
    ensures |Voters(c, i, e)| + |Voters(c, j, e)| <= |V|
  {
    var a, b := Voters(c, i, e), Voters(c, j, e);
    forall v | v in a
      ensures v !in b
    {
      assert Vote(v, e, i) in c.votes;
      assert v in b <==> Vote(v, e, j) in c.votes;
    }
    assert |a + b| == |a| + |b|;
    SubsetSize(a + b, V);
  }

  /** In every run, two replicas win the same epoch only if they had counted enough before: one vote
      between them if the size of the cluster is odd, two if it is even. */
  lemma TwoWinsNeedStaleVotes(V: set<Name>, states: seq<Cluster>, steps: seq<Step>, k: nat, v: (Name, nat), w: (Name, nat))
    requires Run(V, states, steps) && k < |states|
    requires v in states[k].wins && w in states[k].wins && v.1 == w.1 && v != w
    ensures v in states[k].early && w in states[k].early
    ensures states[k].early[v] + states[k].early[w] >= 2 * Quorum(|V|) - |V| == 2 - |V| % 2
  {
    InvHolds(V, states, steps, k);
    WinsHaveVoters(V, states, steps, k, v);
    WinsHaveVoters(V, states, steps, k, w);
    VotersAreShared(V, states[k], v.0, w.0, v.1);
  }

  lemma EarlyStep(V: set<Name>, c: Cluster, c1: Cluster, st: Step)
    requires Effect(V, c, c1, st) && !StaleStart(c, st)
    requires forall w :: w in c.early ==> c.early[w] == 0
    ensures forall w :: w in c1.early ==> c1.early[w] == 0
  {
  }

  /** Without stale starts nothing is ever counted before an election. */
  lemma {:induction false} NothingEarly(V: set<Name>, states: seq<Cluster>, steps: seq<Step>, k: nat)
    requires Run(V, states, steps) && k < |states|
    requires forall i :: 0 <= i < k ==> !StaleStart(states[i], steps[i])
    ensures forall w :: w in states[k].early ==> states[k].early[w] == 0
  {
    if k > 0 {
      NothingEarly(V, states, steps, k - 1);
      EpochBound(V, states, steps, k - 1);
      StepHasEffect(V, states[k - 1], states[k], steps[k - 1]);
      EarlyStep(V, states[k - 1], states[k], steps[k - 1]);
    }
  }

  /** In every run in which no election starts with votes already counted, no two replicas win the
      same epoch. */
  lemma ElectionSafety(V: set<Name>, states: seq<Cluster>, steps: seq<Step>, k: nat)
    requires Run(V, states, steps) && k < |states|
    requires forall i :: 0 <= i < k ==> !StaleStart(states[i], steps[i])
    ensures forall v, w :: v in states[k].wins && w in states[k].wins && v.1 == w.1 ==> v == w
  {
    NothingEarly(V, states, steps, k);
    forall v, w | v in states[k].wins && w in states[k].wins && v.1 == w.1
      ensures v == w
    {
      if v != w {
        TwoWinsNeedStaleVotes(V, states, steps, k, v, w);
      }
    }
  }
}
