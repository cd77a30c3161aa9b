/** The operations of a dictionary without safe iterators, as steps between its states. */
module DictOps {
  import opened Options
  import opened Words
  import opened Tables
  import opened Dicts

  /** An operation, with the states it passes through: after its rehash step, after the growth that
      follows, and, when a replace finds the key, after the rehash step of that search. */
  datatype Op<K, V> =
    | Added(stepped: State<K, V>, grown: State<K, V>, e: Entry<K, V>)
    | NotAdded(stepped: State<K, V>, grown: State<K, V>)
    | Overwritten(stepped: State<K, V>, grown: State<K, V>, again: State<K, V>)
    | Deleted(stepped: State<K, V>, k: K)
    | NotDeleted
    | Found

  /** One rehash step, if a rehash is running. */
  ghost predicate Stepped<K, V>(hash: K -> Word, s: State<K, V>, s1: State<K, V>) {
    Wf(hash, s1) && if s.rehashidx == -1 then s1 == s else Advanced(s, s1)
  }

  function Entries<K, V>(s: State<K, V>): nat {
    s.t0.used + s.t1.used
  }

  ghost predicate Performs<K, V>(hash: K -> Word, s: State<K, V>, op: Op<K, V>, s1: State<K, V>) {
    && Wf(hash, s1)
    && match op
       case Added(stepped, grown, e) => Stepped(hash, s, stepped) && Grown(stepped, grown) && Pushed(hash, grown, s1, e)
       case NotAdded(stepped, grown) => Stepped(hash, s, stepped) && Grown(stepped, grown) && s1 == grown
       case Overwritten(stepped, grown, again) =>
         Stepped(hash, s, stepped) && Grown(stepped, grown) && Stepped(hash, grown, again) && Revalued(again, s1)
       case Deleted(stepped, k) => Stepped(hash, s, stepped) && Removed(hash, stepped, s1, k)
       case NotDeleted => Stepped(hash, s, s1)
       case Found => if Entries(s) == 0 then s1 == s else Stepped(hash, s, s1)
  }

  /** dictAdd is such a step. */
  method PerformAdd<K(==, !new), V>(d: Dict<K, V>, k: K, v: V) returns (ok: bool, ghost op: Op<K, V>)
    requires d.Valid() && |d.contents| <= MAX_USED && d.iterators == 0
    modifies d
    ensures d.Valid() && d.iterators == 0 && Performs(d.hash, old(d.S()), op, d.S())
    ensures if ok then op.Added? && op.e == Entry(k, v) else op.NotAdded?
    ensures ok == (k !in old(d.contents)) && d.contents == if ok then old(d.contents)[k := v] else old(d.contents)
  {
    ghost var stepped, grown;
    ok, stepped, grown := d.Add(k, v);
    op := if ok then Added(stepped, grown, Entry(k, v)) else NotAdded(stepped, grown);
  }

  /** dictReplace is one. */
  method PerformReplace<K(==, !new), V>(d: Dict<K, V>, k: K, v: V) returns (added: bool, ghost op: Op<K, V>)
    requires d.Valid() && |d.contents| <= MAX_USED && d.iterators == 0
    modifies d
    ensures d.Valid() && d.iterators == 0 && Performs(d.hash, old(d.S()), op, d.S())
    ensures if added then op.Added? && op.e == Entry(k, v) else op.Overwritten?
    ensures added == (k !in old(d.contents)) && d.contents == old(d.contents)[k := v]
  {
    ghost var stepped, grown, again;
    added, stepped, grown, again := d.Replace(k, v);
    op := if added then Added(stepped, grown, Entry(k, v)) else Overwritten(stepped, grown, again);
  }

  /** dictDelete is one. */
  method PerformDelete<K(==, !new), V>(d: Dict<K, V>, k: K) returns (ok: bool, ghost op: Op<K, V>)
    requires d.Valid() && d.iterators == 0
    modifies d
    ensures d.Valid() && d.iterators == 0 && Performs(d.hash, old(d.S()), op, d.S())
    ensures if ok then op.Deleted? && op.k == k else op.NotDeleted?
    ensures ok == (k in old(d.contents)) && d.contents == old(d.contents) - {k}
  {
    ghost var stepped;
    ok, stepped := d.Delete(k);
    op := if ok then Deleted(stepped, k) else NotDeleted;
  }

  /** dictFind is one. */
  method PerformFind<K(==, !new), V>(d: Dict<K, V>, k: K) returns (r: Option<V>, ghost op: Op<K, V>)
    requires d.Valid() && d.iterators == 0
    modifies d
    ensures d.Valid() && d.iterators == 0 && Performs(d.hash, old(d.S()), op, d.S())
    ensures op == Found && d.contents == old(d.contents)
    ensures r == if k in d.contents then Some(d.contents[k]) else None
  {
    r := d.Find(k);
    op := Found;
  }

  /** A sequence of operations. */
  ghost predicate OpRun<K, V>(hash: K -> Word, states: seq<State<K, V>>, ops: seq<Op<K, V>>) {
    && |states| == |ops| + 1 && Wf(hash, states[0])
    && (forall i :: 0 <= i < |ops| ==> Performs(hash, states[i], ops[i], states[i + 1]))
  }

  /** No operation makes the smaller live table smaller. */
  lemma OperationNeverShrinks<K, V>(hash: K -> Word, s: State<K, V>, op: Op<K, V>, s1: State<K, V>)
    requires Wf(hash, s) && Performs(hash, s, op, s1)
    ensures Smaller(s) <= Smaller(s1)
  {
    if op.Added? || op.NotAdded? || op.Overwritten? {
      GrowthOnly(hash, s, op.stepped, op.grown);
    }
  }

  lemma {:induction false} RunNeverShrinks<K, V>(hash: K -> Word, states: seq<State<K, V>>, ops: seq<Op<K, V>>, i: nat, j: nat)
    requires OpRun(hash, states, ops) && i <= j < |states|
    ensures Smaller(states[i]) <= Smaller(states[j]) && Wf(hash, states[j])
    decreases j
  {
    if i < j {
      RunNeverShrinks(hash, states, ops, i, j - 1);
      assert Performs(hash, states[j - 1], ops[j - 1], states[j]);
      OperationNeverShrinks(hash, states[j - 1], ops[j - 1], states[j]);
    } else if j > 0 {
      assert Performs(hash, states[j - 1], ops[j - 1], states[j]);
    }
  }
}
