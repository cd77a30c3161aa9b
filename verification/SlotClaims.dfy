/** How slot claims with config epochs rebind slots, as a function on the owner table, and where any
    order of claims leads. */
module SlotClaims {
  import opened Options

  const CLUSTER_SLOTS := 16384

  type Owners<T> = s: seq<Option<T>> | |s| == CLUSTER_SLOTS witness seq(CLUSTER_SLOTS, _ => None)

  /** The claim of the sender wins slot j. */
  predicate Wins<T(==)>(owner: Owners<T>, epochs: map<T, nat>, sender: T, epoch: nat, claimed: set<nat>,
                        importing: set<nat>, j: nat)
    requires j < CLUSTER_SLOTS
  {
    && j in claimed && owner[j] != Some(sender) && j !in importing
    && (owner[j] == None || (owner[j].value in epochs && epochs[owner[j].value] < epoch))
  }

  /** clusterUpdateSlotsConfigWith on the slots table. */
  function Rebind<T(==)>(owner: Owners<T>, epochs: map<T, nat>, sender: T, epoch: nat, claimed: set<nat>,
                         importing: set<nat>): Owners<T> {
    seq(CLUSTER_SLOTS, j requires 0 <= j < CLUSTER_SLOTS =>
      if Wins(owner, epochs, sender, epoch, claimed, importing, j) then Some(sender) else owner[j])
  }

  // ---------------------------------------------------------------- convergence

  datatype Claim = Claim(epoch: nat, slots: set<nat>)
  datatype View<T> = View(owner: Owners<T>, epochs: map<T, nat>)

  function Slots<T(==)>(owner: Owners<T>, n: T): set<nat> {
    set j: nat | j < CLUSTER_SLOTS && owner[j] == Some(n)
  }

  /** A PING with a claim: adopt a greater config epoch of the sender, and if the slots it claims are
      not the slots it has here, rebind. The receiver is importing nothing. */
  function Process<T(==)>(v: View<T>, sender: T, c: Claim): View<T> {
    var epochs := if sender in v.epochs && v.epochs[sender] >= c.epoch then v.epochs else v.epochs[sender := c.epoch];
    if Slots(v.owner, sender) == c.slots then v.(epochs := epochs)
    else View(Rebind(v.owner, epochs, sender, c.epoch, c.slots, {}), epochs)
  }

  function ProcessAll<T(==)>(v: View<T>, claims: map<T, Claim>, order: seq<T>): View<T>
    requires forall s :: s in order ==> s in claims
  {
    if order == [] then v
    else
      var n := |order| - 1;
      Process(ProcessAll(v, claims, order[..n]), order[n], claims[order[n]])
  }

  /** s claims slot j, and no claimant among those heard has a greater epoch. */
  ghost predicate Best<T(!new)>(claims: map<T, Claim>, heard: set<T>, j: nat, s: T) {
    && s in heard && s in claims && j in claims[s].slots
    && forall t :: t in heard && t in claims && j in claims[t].slots ==> claims[t].epoch <= claims[s].epoch
  }

  /** Every slot belongs to the best claimant heard, and its epoch is known. */
  ghost predicate Settled<T(!new)>(v: View<T>, claims: map<T, Claim>, heard: set<T>) {
    && (forall j: nat, s :: j < CLUSTER_SLOTS ==> (v.owner[j] == Some(s) <==> Best(claims, heard, j, s)))
    && (forall s :: s in heard && s in claims ==> s in v.epochs && v.epochs[s] == claims[s].epoch)
    && (forall s :: s in claims && s in v.epochs ==> v.epochs[s] <= claims[s].epoch)
  }

  ghost predicate DistinctEpochs<T(!new)>(claims: map<T, Claim>) {
    forall s, t :: s in claims && t in claims && s != t ==> claims[s].epoch != claims[t].epoch
  }

  /** When there is a claimant there is a best one. */
  lemma {:induction false} BestExists<T(!new)>(claims: map<T, Claim>, heard: set<T>, j: nat, t: T)
    requires t in heard && t in claims && j in claims[t].slots
    ensures exists s :: Best(claims, heard, j, s)
    decreases |heard|
  {
    if !Best(claims, heard, j, t) {
      var u :| u in heard && u in claims && j in claims[u].slots && claims[u].epoch > claims[t].epoch;
      var rest := heard - {t};
      BestExists(claims, rest, j, u);
      var s :| Best(claims, rest, j, s);
      assert claims[u].epoch <= claims[s].epoch;
      assert Best(claims, heard, j, s);
    }
  }

  lemma ProcessSettles<T(!new)>(v: View<T>, claims: map<T, Claim>, heard: set<T>, sender: T)
    requires DistinctEpochs(claims) && Settled(v, claims, heard) && sender in claims
    ensures Settled(Process(v, sender, claims[sender]), claims, heard + {sender})
  {
    var c, v1 := claims[sender], Process(v, sender, claims[sender]);
    forall j: nat, s | j < CLUSTER_SLOTS
      ensures v1.owner[j] == Some(s) <==> Best(claims, heard + {sender}, j, s)
    {
      SlotSettles(v, claims, heard, sender, j, s);
    }
  }

  lemma SlotSettles<T(!new)>(v: View<T>, claims: map<T, Claim>, heard: set<T>, sender: T, j: nat, s: T)
    requires DistinctEpochs(claims) && Settled(v, claims, heard) && sender in claims && j < CLUSTER_SLOTS
    ensures Process(v, sender, claims[sender]).owner[j] == Some(s) <==> Best(claims, heard + {sender}, j, s)
  {
    var c, v1, o := claims[sender], Process(v, sender, claims[sender]), v.owner[j];
    assert j in Slots(v.owner, sender) <==> o == Some(sender);
    if o.Some? {
      assert Best(claims, heard, j, o.value);
    }
    if j in c.slots {
      if o == None {
        forall t | t in heard && t in claims && j in claims[t].slots
          ensures false
        {
          BestExists(claims, heard, j, t);
        }
      }
    }
  }

  ghost function Heard<T>(order: seq<T>): set<T> {
    set s | s in order
  }

  /** An unbound table, where no sender is believed to have a greater epoch than it claims with. */
  ghost predicate Unbound<T(!new)>(v: View<T>, claims: map<T, Claim>) {
    && (forall j: nat :: j < CLUSTER_SLOTS ==> v.owner[j] == None)
    && (forall s :: s in claims && s in v.epochs ==> v.epochs[s] <= claims[s].epoch)
  }

  /** Claims processed in any order, with any repetitions, leave every slot with the claimant of the
      greatest epoch among those heard, and with nobody if nobody claims it. */
  lemma {:induction false} ClaimsConverge<T(!new)>(v: View<T>, claims: map<T, Claim>, order: seq<T>)
    requires DistinctEpochs(claims) && Unbound(v, claims) && forall s :: s in order ==> s in claims
    ensures Settled(ProcessAll(v, claims, order), claims, Heard(order))
  {
    if order == [] {
      assert Heard(order) == {};
    } else {
      var n := |order| - 1;
      ClaimsConverge(v, claims, order[..n]);
      ProcessSettles(ProcessAll(v, claims, order[..n]), claims, Heard(order[..n]), order[n]);
      assert order == order[..n] + [order[n]];
      assert Heard(order) == Heard(order[..n]) + {order[n]};
    }
  }

  /** So two receivers that have heard the same claimants have the same table. */
  lemma OrderDoesNotMatter<T(!new)>(v: View<T>, w: View<T>, claims: map<T, Claim>, order: seq<T>, order1: seq<T>)
    requires DistinctEpochs(claims) && Unbound(v, claims) && Unbound(w, claims) && Heard(order) == Heard(order1)
    requires forall s :: s in order || s in order1 ==> s in claims
    ensures ProcessAll(v, claims, order).owner == ProcessAll(w, claims, order1).owner
  {
    ClaimsConverge(v, claims, order);
    ClaimsConverge(w, claims, order1);
    var a, b := ProcessAll(v, claims, order).owner, ProcessAll(w, claims, order1).owner;
    forall j | 0 <= j < CLUSTER_SLOTS
      ensures a[j] == b[j]
    {
      if a[j].Some? {
        assert Best(claims, Heard(order), j, a[j].value);
      } else if b[j].Some? {
        assert Best(claims, Heard(order), j, b[j].value);
      }
    }
  }
}
