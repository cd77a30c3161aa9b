/** dictScan on a dictionary object. */
module ScanCall {
  import opened Words
  import opened Tables
  import opened Dicts
  import opened DictScan

  /** dictScan. */
  method Scan<K(!new), V>(d: Dict<K, V>, v0: Word) returns (v: Word, out: seq<Entry<K, V>>)
    requires d.Valid()
    ensures forall k :: HasKey(out, k) <==> Emits(d.hash, d.S(), v0, k)
    ensures v == Next(d.S(), v0)
  {
    if d.ht0.used + d.ht1.used == 0 {
      assert d.contents == map[];
      forall k ensures !Emits(d.hash, d.S(), v0, k) {
        assert Holds(d.hash, d.ht0, d.ht1, d.contents, k);
      }
      return Zero(), [];
    }
    v := v0;
    var n;
    if !d.IsRehashing() {
      n := d.ht0.bits;
      ChainAt(d.hash, d.ht0, v);
      out := d.ht0.buckets[Bucket(v, n)];
    } else {
      var t0, t1 := d.ht0, d.ht1;
      OrderBySize(d.hash, t0, t1);
      if |t0.buckets| > |t1.buckets| {
        t0, t1 := t1, t0;
      }
      n := t0.bits;
      ChainAt(d.hash, t0, v);
      var more;
      more, v := ScanExpansions(d.hash, t1, n, v);
      HasKeyConcat(t0.buckets[Bucket(v0, n)], more);
      out := t0.buckets[Bucket(v0, n)] + more;
    }
    v := Or(v, Not(Mask(n)));
    assert v == Or(v0, Not(Mask(n))) by { LowBitsOnly(v0, n); }
    v := Rev(v);
    v := Increment(v);
    v := Rev(v);
  }
}
