/** Powers of a number. */
module Powers {

  function Power(base: nat, n: nat): (r: nat)
    ensures base >= 1 ==> r >= 1
  {
    if n == 0 then 1 else base * Power(base, n - 1)
  }

  lemma {:induction false} PowerGrows(base: nat, m: nat, n: nat)
    requires base >= 1 && m <= n
    ensures Power(base, m) <= Power(base, n)
    ensures m < n ==> base * Power(base, m) <= Power(base, n)
    decreases n
  {
    if m < n {
      PowerGrows(base, m, n - 1);
      Scaled(base, Power(base, m), Power(base, n - 1));
    }
  }

  lemma Scaled(base: nat, x: nat, y: nat)
    requires base >= 1 && x <= y
    ensures x <= base * x <= base * y
  {
  }
}
