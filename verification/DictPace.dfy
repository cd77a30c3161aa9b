/** Incremental rehashing keeps pace with the operations: a rehash that an insert starts ends within as
    many rehash steps as the old table has buckets, and when it ends the new table holds no more
    entries than buckets. No safe iterator is running. */
module DictPace {
  import opened Options
  import opened Words
  import opened Tables
  import opened Dicts
  import opened DictOps

  /** The insert makes the table grow. */
  ghost predicate Starts<K, V>(s: State<K, V>, op: Op<K, V>) {
    s.rehashidx == -1 && (op.Added? || op.NotAdded? || op.Overwritten?) && op.grown.rehashidx == 0
  }

  /** The state, of those that the operation passes through, in which the rehash is over. */
  ghost function Ended<K, V>(s: State<K, V>, op: Op<K, V>, s1: State<K, V>): Option<State<K, V>> {
    var first := if op.Found? || op.NotDeleted? then s1 else op.stepped;
    if s.rehashidx >= 0 && first.rehashidx == -1 then Some(first)
    else if op.Overwritten? && op.again.rehashidx == -1 then Some(op.again)
    else None
  }

  /** The operation makes a rehash step: all do, except the search of a dictionary without entries. */
  predicate Effective<K, V>(s: State<K, V>, op: Op<K, V>) {
    !(op.Found? && Entries(s) == 0)
  }

  /** How many steps of the rehash that is on or that it starts the operation makes: one before its search,
      if the rehash is on by then, and one more before the second search of a replace that finds its key,
      if the rehash is on still. */
  function StepsOf<K, V>(s: State<K, V>, op: Op<K, V>): nat {
    (if s.rehashidx != -1 && Effective(s, op) then 1 else 0)
    + (if op.Overwritten? && op.grown.rehashidx != -1 && (s.rehashidx == -1 || op.stepped.rehashidx != -1) then 1 else 0)
  }

  /** A rehash goes on. */
  ghost predicate GoesOn<K, V>(s: State<K, V>, s1: State<K, V>, full: nat) {
    Paced(s1, full) && |s1.t0.buckets| == |s.t0.buckets|
  }

  ghost predicate NotOverfull<K, V>(s: State<K, V>) {
    s.t0.used <= |s.t0.buckets|
  }

  /** One rehash step of a paced rehash. */
  lemma StepKeepsPace<K, V>(hash: K -> Word, s: State<K, V>, s1: State<K, V>, full: nat)
    requires Paced(s, full) && Stepped(hash, s, s1)
    ensures if s1.rehashidx == -1 then NotOverfull(s1)
            else GoesOn(s, s1, full) && s1.rehashidx > s.rehashidx && Entries(s1) <= full + s1.rehashidx
  {
  }

  lemma PushKeepsPace<K, V>(hash: K -> Word, s: State<K, V>, s1: State<K, V>, e: Entry<K, V>, full: nat)
    requires Paced(s, full) && Entries(s) <= full + s.rehashidx && Pushed(hash, s, s1, e)
    ensures GoesOn(s, s1, full) && s1.rehashidx == s.rehashidx
  {
  }

  lemma RemoveKeepsPace<K, V>(hash: K -> Word, s: State<K, V>, s1: State<K, V>, k: K, full: nat)
    requires Paced(s, full) && Removed(hash, s, s1, k)
    ensures GoesOn(s, s1, full) && s1.rehashidx == s.rehashidx
  {
    var b: nat, j: nat :|
      || (b < |s.t0.buckets| && j < |s.t0.buckets[b]| && s1.t0 == Dropped(hash, s.t0, b, j) && s1.t1 == s.t1)
      || (b < |s.t1.buckets| && j < |s.t1.buckets[b]| && s1.t1 == Dropped(hash, s.t1, b, j) && s1.t0 == s.t0);
  }

  /** The growth that starts a rehash leaves it paced. */
  lemma GrowthIsPaced<K, V>(hash: K -> Word, s: State<K, V>, grown: State<K, V>)
    requires Wf(hash, s) && s.rehashidx == -1 && Grown(s, grown) && grown.rehashidx == 0
    ensures GoesOn(s, grown, s.t0.used) && Entries(grown) <= s.t0.used
  {
  }

  /** One operation: it ends the rehash with a table that is not over-full, or the rehash stays paced. The
      steps that the operation makes move it on, and there is a bucket of the old table for each. */
  lemma OperationKeepsPace<K, V>(hash: K -> Word, s: State<K, V>, op: Op<K, V>, s1: State<K, V>, full: nat)
    requires Paced(s, full) && Performs(hash, s, op, s1)
    ensures match Ended(s, op, s1)
            case Some(x) => NotOverfull(x) && s.rehashidx + StepsOf(s, op) <= |s.t0.buckets|
            case None => GoesOn(s, s1, full) && s1.rehashidx >= s.rehashidx + StepsOf(s, op)
  {
    var first := if op.Found? || op.NotDeleted? then s1 else op.stepped;
    if Effective(s, op) {
      StepKeepsPace(hash, s, first, full);
      if first.rehashidx != -1 {
        match op
        case Added(_, _, e) => PushKeepsPace(hash, first, s1, e, full);
        case Overwritten(_, _, again) => StepKeepsPace(hash, first, again, full);
        case Deleted(_, k) => RemoveKeepsPace(hash, first, s1, k, full);
        case _ =>
      }
    }
  }

  /** The insert that starts a rehash. */
  lemma StartIsPaced<K, V>(hash: K -> Word, s: State<K, V>, op: Op<K, V>, s1: State<K, V>)
    requires Wf(hash, s) && Starts(s, op) && Performs(hash, s, op, s1)
    ensures match Ended(s, op, s1)
            case Some(x) => NotOverfull(x) && StepsOf(s, op) <= |s.t0.buckets|
            case None => GoesOn(s, s1, s.t0.used) && s1.rehashidx >= StepsOf(s, op)
  {
    GrowthIsPaced(hash, s, op.grown);
    match op
    case Added(_, grown, e) => PushKeepsPace(hash, grown, s1, e, s.t0.used);
    case Overwritten(_, grown, again) => StepKeepsPace(hash, grown, again, s.t0.used);
    case _ =>
  }

  /** How many rehash steps the first n operations make. */
  ghost function Steps<K, V>(states: seq<State<K, V>>, ops: seq<Op<K, V>>, n: nat): nat
    requires n <= |ops| <= |states|
  {
    if n == 0 then 0 else Steps(states, ops, n - 1) + StepsOf(states[n - 1], ops[n - 1])
  }

  ghost predicate EndsAt<K, V>(states: seq<State<K, V>>, ops: seq<Op<K, V>>, i: nat)
    requires i < |ops| && |states| == |ops| + 1
  {
    Ended(states[i], ops[i], states[i + 1]).Some?
  }

  lemma {:induction false} RunStaysPaced<K, V>(hash: K -> Word, states: seq<State<K, V>>, ops: seq<Op<K, V>>, n: nat)
    requires OpRun(hash, states, ops) && 1 <= n <= |ops| && Starts(states[0], ops[0])
    requires forall i: nat :: i < n ==> !EndsAt(states, ops, i)
    ensures GoesOn(states[0], states[n], states[0].t0.used)
    ensures Steps(states, ops, n) <= states[n].rehashidx
  {
    assert Performs(hash, states[n - 1], ops[n - 1], states[n]);
    assert !EndsAt(states, ops, n - 1);
    if n == 1 {
      assert Steps(states, ops, 1) == Steps(states, ops, 0) + StepsOf(states[0], ops[0]);
      StartIsPaced(hash, states[0], ops[0], states[1]);
    } else {
      RunStaysPaced(hash, states, ops, n - 1);
      OperationKeepsPace(hash, states[n - 1], ops[n - 1], states[n], states[0].t0.used);
    }
  }

  lemma EndIsInTime<K, V>(hash: K -> Word, states: seq<State<K, V>>, ops: seq<Op<K, V>>, n: nat)
    requires OpRun(hash, states, ops) && n < |ops| && Starts(states[0], ops[0]) && EndsAt(states, ops, n)
    requires forall i: nat :: i < n ==> !EndsAt(states, ops, i)
    ensures Steps(states, ops, n + 1) <= |states[0].t0.buckets| && NotOverfull(Ended(states[n], ops[n], states[n + 1]).value)
  {
    assert Performs(hash, states[n], ops[n], states[n + 1]);
    assert Steps(states, ops, n + 1) == Steps(states, ops, n) + StepsOf(states[n], ops[n]);
    if n == 0 {
      StartIsPaced(hash, states[0], ops[0], states[1]);
    } else {
      RunStaysPaced(hash, states, ops, n);
      OperationKeepsPace(hash, states[n], ops[n], states[n + 1], states[0].t0.used);
    }
  }

  /** In every run of operations from an insert that starts a rehash, up to the one that ends it if the
      run gets there: no more rehash steps are made than the old table had buckets, one less if
      the rehash is not over; and when it is over, the table has no more entries than buckets. */
  lemma RehashKeepsPace<K, V>(hash: K -> Word, states: seq<State<K, V>>, ops: seq<Op<K, V>>)
    requires OpRun(hash, states, ops) && ops != [] && Starts(states[0], ops[0])
    requires forall i: nat :: i < |ops| - 1 ==> !EndsAt(states, ops, i)
    ensures var n := |ops|;
            match Ended(states[n - 1], ops[n - 1], states[n])
            case Some(x) => Steps(states, ops, n) <= |states[0].t0.buckets| && NotOverfull(x)
            case None => Steps(states, ops, n) < |states[0].t0.buckets| && states[n].rehashidx >= 0
  {
    var n := |ops|;
    if EndsAt(states, ops, n - 1) {
      EndIsInTime(hash, states, ops, n - 1);
    } else {
      RunStaysPaced(hash, states, ops, n);
    }
  }
}
