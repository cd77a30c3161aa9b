/** Config epoch collisions repair themselves. In runs made of packet exchange and collision handling
    among masters, the node that k others precede by a greater name changes its config epoch at most
    k times, and nothing changes any more, stale packets included, exactly when all config epochs differ. */
module Collision {
  import opened Cluster

  // ---------------------------------------------------------------- counting

  /** The config epochs that each node has had, in order. */
  type Ledger = map<Name, seq<nat>>

  ghost predicate Increasing(h: seq<nat>) {
    forall a, b :: 0 <= a < b < |h| ==> h[a] < h[b]
  }

  ghost predicate HadByGreater(L: Ledger, i: Name, e: nat) {
    exists j :: j in L && j > i && e in L[j]
  }

  /** Every epoch that i has left is one that a node with a greater name has had. */
  ghost predicate Explained(L: Ledger, i: Name)
    requires i in L
  {
    forall t :: 0 <= t < |L[i]| - 1 ==> HadByGreater(L, i, L[i][t])
  }

  ghost predicate LedgerOk(L: Ledger) {
    forall i :: i in L ==> L[i] != [] && Increasing(L[i]) && Explained(L, i)
  }

  ghost function Above(L: Ledger, i: Name): set<Name> {
    set j | j in L && j > i
  }

  /** All config epochs that the nodes of U have ever had. */
  ghost function EpochsOf(L: Ledger, U: set<Name>): set<nat>
    requires U <= L.Keys
  {
    set j, e | j in U && e in L[j] :: e
  }

  lemma {:induction false} Least(U: set<Name>) returns (i: Name)
    requires U != {}
    ensures i in U && forall j :: j in U ==> i <= j
    decreases |U|
  {
    i :| i in U;
    if exists j :: j in U && j < i {
      var j :| j in U && j < i;
      var T := U - {i};
      assert j in T;
      var k := Least(T);
      assert k <= j;
      assert forall x :: x in U ==> x == i || x in T;
      i := k;
    }
  }

  /** Adding the node with the least name to a set closed under greater names adds at most one epoch. */
  lemma OneMoreEpoch(L: Ledger, T: set<Name>, i: Name)
    requires LedgerOk(L) && i in L && T <= L.Keys && forall j :: j in L && j > i ==> j in T
    ensures |EpochsOf(L, T + {i})| <= |EpochsOf(L, T)| + 1
  {
    var h := L[i];
    var last := h[|h| - 1];
    forall e | e in EpochsOf(L, T + {i})
      ensures e in EpochsOf(L, T) + {last}
    {
      var j :| j in T + {i} && e in L[j];
      if j == i && e != last {
        var t :| 0 <= t < |h| && h[t] == e;
        assert HadByGreater(L, i, e);
      }
    }
    SubsetSize(EpochsOf(L, T + {i}), EpochsOf(L, T) + {last});
  }

  /** A set of nodes closed under greater names has had no more epochs than it has members. */
  lemma {:induction false} FewEpochs(L: Ledger, U: set<Name>)
    requires LedgerOk(L) && U <= L.Keys && forall i, j :: i in U && j in L && j > i ==> j in U
    ensures |EpochsOf(L, U)| <= |U|
    decreases |U|
  {
    if U == {} {
      assert EpochsOf(L, U) == {};
    } else {
      var i := Least(U);
      var T := U - {i};
      FewEpochs(L, T);
      OneMoreEpoch(L, T, i);
      assert T + {i} == U;
    }
  }

  ghost function Elements(h: seq<nat>): set<nat> {
    set e | e in h
  }

  lemma {:induction false} DistinctCount(h: seq<nat>)
    requires Increasing(h)
    ensures |Elements(h)| == |h|
  {
    if h != [] {
      var n := |h| - 1;
      DistinctCount(h[..n]);
      assert h == h[..n] + [h[n]];
      assert Elements(h) == Elements(h[..n]) + {h[n]};
    }
  }

  /** A node has changed its config epoch at most as often as there are nodes with greater names. */
  lemma FewChanges(L: Ledger, i: Name)
    requires LedgerOk(L) && i in L
    ensures |L[i]| - 1 <= |Above(L, i)|
  {
    var h := L[i];
    var left := h[..|h| - 1];
    DistinctCount(left);
    FewEpochs(L, Above(L, i));
    forall e | e in Elements(left)
      ensures e in EpochsOf(L, Above(L, i))
    {
      var t :| 0 <= t < |left| && left[t] == e;
      assert HadByGreater(L, i, h[t]);
    }
    SubsetSize(Elements(left), EpochsOf(L, Above(L, i)));
  }

  // ---------------------------------------------------------------- the runs

  /** Packets are not consumed, so each may be delivered late, repeatedly or never. */
  datatype World = World(nodes: map<Name, Node>, net: set<Msg>, history: Ledger)

  function Own(n: Node): nat {
    if n.me in n.peers then n.peers[n.me].configEpoch else 0
  }

  /** A master that knows only masters, with bounded epochs. */
  ghost predicate MasterOk(i: Name, n: Node) {
    NodeOk(i, n) && forall p :: p in n.peers ==> n.peers[p].master
  }

  ghost predicate NodesOk(w: World) {
    w.history.Keys == w.nodes.Keys && forall i :: i in w.nodes ==> MasterOk(i, w.nodes[i])
  }

  /** Nobody believes another's config epoch to be greater than it is. */
  ghost predicate ViewsOk(w: World) {
    forall i, p :: i in w.nodes && p in w.nodes && p in w.nodes[i].peers ==>
      w.nodes[i].peers[p].configEpoch <= Own(w.nodes[p])
  }

  /** A packet carries a config epoch that its sender has had. */
  ghost predicate NetOk(w: World) {
    forall m :: m in w.net ==> MsgOk(m) && m.sender in w.nodes && m.sender in w.history && m.configEpoch in w.history[m.sender]
  }

  ghost predicate HistoryOk(w: World) {
    forall i :: i in w.nodes && i in w.history ==> w.history[i] != [] && w.history[i][|w.history[i]| - 1] == Own(w.nodes[i])
  }

  ghost predicate Inv(w: World) {
    NodesOk(w) && ViewsOk(w) && NetOk(w) && HistoryOk(w) && LedgerOk(w.history)
  }

  ghost predicate Init(w: World) {
    NodesOk(w) && ViewsOk(w) && w.net == {} && forall i :: i in w.nodes ==> w.history[i] == [Own(w.nodes[i])]
  }

  /** Reception of a PING by a master from a master. */
  function Deliver(n: Node, m: Msg): Node
    requires n.me in n.peers
  {
    if m.sender in n.peers then HandleCollision(MergeHeader(n, m), m) else n
  }

  datatype Move = SendPing(node: Name, to: Name) | ReceivePing(m: Msg)

  ghost predicate Receives(w: World, w1: World, m: Msg) {
    && m in w.net && m.to in w.nodes && m.sender != m.to && m.to in w.history && w.nodes[m.to].me in w.nodes[m.to].peers
    && var n, n1 := w.nodes[m.to], Deliver(w.nodes[m.to], m);
       w1 == World(w.nodes[m.to := n1], w.net,
                   if Own(n1) == Own(n) then w.history else w.history[m.to := w.history[m.to] + [Own(n1)]])
  }

  ghost predicate Next(w: World, w1: World, mv: Move) {
    match mv
    case SendPing(i, to) =>
      && i in w.nodes && w.nodes[i].me in w.nodes[i].peers
      && w1 == w.(net := w.net + {Packet(w.nodes[i], to, Ping)})
    case ReceivePing(m) => Receives(w, w1, m)
  }

  ghost predicate Run(worlds: seq<World>, moves: seq<Move>) {
    && |worlds| == |moves| + 1 && Init(worlds[0])
    && forall i :: 0 <= i < |moves| ==> Next(worlds[i], worlds[i + 1], moves[i])
  }

  /** What the reception of a packet from another master does to a master. */
  ghost predicate Effect(i: Name, n: Node, m: Msg, n1: Node) {
    && MasterOk(i, n1) && i in n.peers && n1.peers.Keys == n.peers.Keys
    && (forall p :: p in n.peers && p != i && p != m.sender ==> n1.peers[p] == n.peers[p])
    && (m.sender in n.peers ==> n1.peers[m.sender].configEpoch == Max(n.peers[m.sender].configEpoch, m.configEpoch))
    && Own(n1) >= Own(n)
    && (Own(n1) != Own(n) <==> m.sender in n.peers && m.sender > i && m.configEpoch == Own(n)
                               && n.peers[m.sender].configEpoch <= m.configEpoch)
  }

  lemma DeliverEffect(i: Name, n: Node, m: Msg)
    requires MasterOk(i, n) && MsgOk(m) && m.sender != i
    ensures Effect(i, n, m, Deliver(n, m))
  {
    if m.sender in n.peers {
      MergeKeepsBound(i, n, m);
      CollisionKeepsBound(i, MergeHeader(n, m), m);
    }
  }

  /** The same reception, without the code. */
  ghost predicate Received(w: World, w1: World, m: Msg) {
    && m in w.net && m.to in w.nodes && m.to in w.history && w1.nodes.Keys == w.nodes.Keys && w1.net == w.net
    && (forall k :: k in w.nodes && k != m.to ==> w1.nodes[k] == w.nodes[k])
    && Effect(m.to, w.nodes[m.to], m, w1.nodes[m.to])
    && w1.history == if Own(w1.nodes[m.to]) == Own(w.nodes[m.to]) then w.history
                     else w.history[m.to := w.history[m.to] + [Own(w1.nodes[m.to])]]
  }

  lemma ReceivesIsReceived(w: World, w1: World, m: Msg)
    requires NodesOk(w) && NetOk(w) && Receives(w, w1, m)
    ensures Received(w, w1, m)
  {
    DeliverEffect(m.to, w.nodes[m.to], m);
  }

  /** A config epoch that a node has had is at most its present one. */
  lemma HadIsPast(w: World, i: Name, e: nat)
    requires HistoryOk(w) && LedgerOk(w.history) && i in w.nodes && i in w.history && e in w.history[i]
    ensures e <= Own(w.nodes[i])
  {
  }

  lemma OnlyForward(w: World, w1: World, m: Msg)
    requires Received(w, w1, m)
    ensures forall k :: k in w.nodes ==> Own(w.nodes[k]) <= Own(w1.nodes[k])
    ensures forall k :: k in w.history ==> k in w1.history && w.history[k] <= w1.history[k]
    ensures w1.history.Keys == w.history.Keys
  {
  }

  lemma ReceivedKeepsNodes(w: World, w1: World, m: Msg)
    requires NodesOk(w) && NetOk(w) && Received(w, w1, m)
    ensures NodesOk(w1) && NetOk(w1)
  {
    OnlyForward(w, w1, m);
  }

  lemma ReceivedKeepsViews(w: World, w1: World, m: Msg)
    requires ViewsOk(w) && Received(w, w1, m) && m.sender in w.nodes && m.configEpoch <= Own(w.nodes[m.sender])
    ensures ViewsOk(w1)
  {
    OnlyForward(w, w1, m);
    forall i, p | i in w1.nodes && p in w1.nodes && p in w1.nodes[i].peers
      ensures w1.nodes[i].peers[p].configEpoch <= Own(w1.nodes[p])
    {
      if i != m.to || p != i {
        assert w.nodes[i].peers[p].configEpoch <= Own(w.nodes[p]) <= Own(w1.nodes[p]);
      }
    }
  }

  /** An epoch is left only because a node with a greater name has had it. */
  lemma ReceivedKeepsLedger(w: World, w1: World, m: Msg)
    requires NodesOk(w) && NetOk(w) && HistoryOk(w) && LedgerOk(w.history) && Received(w, w1, m)
    ensures LedgerOk(w1.history)
  {
    var i, L, L1 := m.to, w.history, w1.history;
    if L1 != L {
      assert L[i][|L[i]| - 1] == Own(w.nodes[i]) == m.configEpoch;
      assert m.sender in L && m.configEpoch in L[m.sender];
      LedgerGrows(L, L1, i, Own(w1.nodes[i]));
    }
  }

  lemma ReceivedKeepsHistory(w: World, w1: World, m: Msg)
    requires HistoryOk(w) && Received(w, w1, m)
    ensures HistoryOk(w1)
  {
  }

  lemma LedgerGrows(L: Ledger, L1: Ledger, i: Name, e: nat)
    requires LedgerOk(L) && i in L && L1 == L[i := L[i] + [e]] && L[i][|L[i]| - 1] < e
    requires HadByGreater(L, i, L[i][|L[i]| - 1])
    ensures LedgerOk(L1)
  {
    forall k | k in L1
      ensures L1[k] != [] && Increasing(L1[k]) && Explained(L1, k)
    {
      forall t | 0 <= t < |L1[k]| - 1
        ensures HadByGreater(L1, k, L1[k][t])
      {
        assert HadByGreater(L, k, L1[k][t]);
        var j :| j in L && j > k && L1[k][t] in L[j];
        assert L1[k][t] in L1[j];
      }
    }
  }

  lemma SendKeepsNet(w: World, w1: World, i: Name, to: Name)
    requires NodesOk(w) && NetOk(w) && HistoryOk(w) && Next(w, w1, SendPing(i, to))
    ensures NetOk(w1)
  {
    assert MasterOk(i, w.nodes[i]);
    var m := Packet(w.nodes[i], to, Ping);
    assert MsgOk(m) && m.sender == i && m.configEpoch == w.history[i][|w.history[i]| - 1];
  }

  lemma SendKeepsInv(w: World, w1: World, i: Name, to: Name)
    requires Inv(w) && Next(w, w1, SendPing(i, to))
    ensures Inv(w1)
  {
    SendKeepsNet(w, w1, i, to);
    assert ViewsOk(w1);
  }

  lemma StepKeepsInv(w: World, w1: World, mv: Move)
    requires Inv(w) && Next(w, w1, mv)
    ensures Inv(w1) && w1.nodes.Keys == w.nodes.Keys
  {
    match mv
    case SendPing(i, to) => SendKeepsInv(w, w1, i, to);
    case ReceivePing(m) =>
      ReceivesIsReceived(w, w1, m);
      ReceivedKeepsNodes(w, w1, m);
      HadIsPast(w, m.sender, m.configEpoch);
      ReceivedKeepsViews(w, w1, m);
      ReceivedKeepsHistory(w, w1, m);
      ReceivedKeepsLedger(w, w1, m);
  }

  lemma {:induction false} InvHolds(worlds: seq<World>, moves: seq<Move>, k: nat)
    requires Run(worlds, moves) && k < |worlds|
    ensures Inv(worlds[k])
  {
    if k > 0 {
      InvHolds(worlds, moves, k - 1);
      StepKeepsInv(worlds[k - 1], worlds[k], moves[k - 1]);
    }
  }

  /** In every run, a node changes its config epoch at most as often as there are nodes with greater
      names; the node with the greatest name never does. */
  lemma CollisionsEnd(worlds: seq<World>, moves: seq<Move>, k: nat, i: Name)
    requires Run(worlds, moves) && k < |worlds| && i in worlds[k].history
    ensures |worlds[k].history[i]| - 1 <= |Above(worlds[k].history, i)|
  {
    InvHolds(worlds, moves, k);
    FewChanges(worlds[k].history, i);
  }

  // ---------------------------------------------------------------- quiescence

  /** The packet that j would send now would change the config epoch of i. */
  ghost predicate Stirs(w: World, j: Name, i: Name)
    requires NodesOk(w) && i in w.nodes && j in w.nodes
  {
    Own(Deliver(w.nodes[i], Packet(w.nodes[j], i, Ping))) != Own(w.nodes[i])
  }

  lemma StirsIff(w: World, j: Name, i: Name)
    requires NodesOk(w) && ViewsOk(w) && i in w.nodes && j in w.nodes && i != j && j in w.nodes[i].peers
    ensures Stirs(w, j, i) <==> j > i && Own(w.nodes[i]) == Own(w.nodes[j])
  {
    var m := Packet(w.nodes[j], i, Ping);
    assert MasterOk(j, w.nodes[j]) && MasterOk(i, w.nodes[i]);
    DeliverEffect(i, w.nodes[i], m);
  }

  ghost predicate Distinct(w: World) {
    forall i, j :: i in w.nodes && j in w.nodes && i < j ==> Own(w.nodes[i]) != Own(w.nodes[j])
  }

  ghost function Last(L: Ledger, i: Name): nat
    requires LedgerOk(L) && i in L
  {
    L[i][|L[i]| - 1]
  }

  /** An epoch that a node has ever had is still the epoch of a node with that or a greater name. */
  lemma {:induction false} SomebodyHasIt(L: Ledger, i: Name, e: nat) returns (j: Name)
    requires LedgerOk(L) && i in L && e in L[i]
    ensures j in L && j >= i && Last(L, j) == e
    decreases |Above(L, i)|
  {
    j := i;
    if e != Last(L, i) {
      var t :| 0 <= t < |L[i]| && L[i][t] == e;
      assert HadByGreater(L, i, L[i][t]);
      var k :| k in L && k > i && e in L[k];
      AboveShrinks(L, i, k);
      j := SomebodyHasIt(L, k, e);
    }
  }

  lemma AboveShrinks(L: Ledger, i: Name, k: Name)
    requires i < k && k in L
    ensures |Above(L, k)| < |Above(L, i)|
  {
    SubsetSize(Above(L, k), Above(L, i) - {k});
  }

  /** The epoch of a packet, if it is the receiver's, is also the present epoch of a node with that or a
      greater name than the sender's. */
  lemma StillHeld(w: World, m: Msg) returns (j: Name)
    requires w.history.Keys == w.nodes.Keys && HistoryOk(w) && LedgerOk(w.history) && NetOk(w) && m in w.net
    ensures j in w.nodes && j >= m.sender && Own(w.nodes[j]) == m.configEpoch
  {
    j := SomebodyHasIt(w.history, m.sender, m.configEpoch);
  }

  /** When all epochs differ no packet changes one, not even a stale one that was still in flight. */
  lemma DistinctStays(w: World, w1: World, m: Msg)
    requires w.history.Keys == w.nodes.Keys && HistoryOk(w) && LedgerOk(w.history) && NetOk(w) && Distinct(w)
    requires Received(w, w1, m)
    ensures w1.history == w.history
  {
    var j := StillHeld(w, m);
  }

  /** What may happen from w on. */
  ghost predicate Continues(w: World, worlds: seq<World>, moves: seq<Move>) {
    && |worlds| == |moves| + 1 && worlds[0] == w
    && forall i :: 0 <= i < |moves| ==> Next(worlds[i], worlds[i + 1], moves[i])
  }

  /** The same histories are the same epochs. */
  lemma SameEpochs(w: World, w1: World)
    requires HistoryOk(w) && HistoryOk(w1) && NodesOk(w) && NodesOk(w1) && w1.history == w.history
    ensures Distinct(w) ==> Distinct(w1)
  {
    forall i | i in w1.nodes
      ensures i in w.nodes && Own(w1.nodes[i]) == Own(w.nodes[i])
    {
      assert i in w1.history;
    }
  }

  lemma {:induction false} DistinctIsFinal(w: World, worlds: seq<World>, moves: seq<Move>, k: nat)
    requires Inv(w) && Distinct(w) && Continues(w, worlds, moves) && k < |worlds|
    ensures Inv(worlds[k]) && worlds[k].history == w.history && Distinct(worlds[k])
  {
    if k > 0 {
      DistinctIsFinal(w, worlds, moves, k - 1);
      var v, v1, mv := worlds[k - 1], worlds[k], moves[k - 1];
      StepKeepsInv(v, v1, mv);
      if mv.ReceivePing? {
        ReceivesIsReceived(v, v1, mv.m);
        DistinctStays(v, v1, mv.m);
      }
      SameEpochs(v, v1);
    }
  }

  /** Two nodes with one epoch: a packet of the greater name, sent and received, changes the other. */
  lemma CollisionStirs(w: World, i: Name, j: Name) returns (worlds: seq<World>, moves: seq<Move>)
    requires Inv(w) && i in w.nodes && j in w.nodes && i < j && j in w.nodes[i].peers && Own(w.nodes[i]) == Own(w.nodes[j])
    ensures Continues(w, worlds, moves) && worlds[|moves|].history != w.history
  {
    StirsIff(w, j, i);
    assert MasterOk(i, w.nodes[i]) && MasterOk(j, w.nodes[j]);
    var m := Packet(w.nodes[j], i, Ping);
    var w1 := w.(net := w.net + {m});
    var n1 := Deliver(w.nodes[i], m);
    var w2 := World(w.nodes[i := n1], w1.net, w.history[i := w.history[i] + [Own(n1)]]);
    assert Next(w, w1, SendPing(j, i)) && Next(w1, w2, ReceivePing(m));
    worlds, moves := [w, w1, w2], [SendPing(j, i), ReceivePing(m)];
    assert |w2.history[i]| != |w.history[i]|;
  }

  /** Among nodes that know each other, nothing ever changes any more, whatever packets are sent from now
      on and whatever stale ones arrive, exactly when all config epochs differ. */
  lemma QuiescentIffDistinct(w: World)
    requires Inv(w) && forall i, j :: i in w.nodes && j in w.nodes ==> j in w.nodes[i].peers
    ensures Distinct(w) <==>
            forall worlds: seq<World>, moves: seq<Move> :: Continues(w, worlds, moves) ==> worlds[|moves|].history == w.history
  {
    if Distinct(w) {
      forall worlds: seq<World>, moves: seq<Move> | Continues(w, worlds, moves)
        ensures worlds[|moves|].history == w.history
      {
        DistinctIsFinal(w, worlds, moves, |moves|);
      }
    } else {
      var i, j :| i in w.nodes && j in w.nodes && i < j && Own(w.nodes[i]) == Own(w.nodes[j]);
      var worlds, moves := CollisionStirs(w, i, j);
    }
  }
}
