/** Reading a running 64-bit counter through two 32-bit halves. */
module Mcycle {
  const HALF: nat := 0x1_0000_0000
  const FULL: nat := 0x1_0000_0000_0000_0000

  function High(v: nat): nat {
    v / HALF
  }

  function Low(v: nat): nat {
    v % HALF
  }

  // counter(i) is the counter's value at the i-th register read: it only grows and does not wrap.
  ghost predicate Advancing(counter: nat -> nat) {
    forall i: nat, j: nat :: i <= j ==> Grows(counter, i, j)
  }

  predicate Grows(counter: nat -> nat, i: nat, j: nat) {
    counter(i) <= counter(j) < FULL
  }

  lemma HighGrows(counter: nat -> nat, i: nat, j: nat)
    requires Advancing(counter) && i <= j
    ensures High(counter(i)) <= High(counter(j)) < HALF
    ensures counter(i) <= counter(j)
  {
    assert Grows(counter, i, j);
  }

  lemma Recombine(first: nat, middle: nat, last: nat)
    requires first <= middle <= last && High(first) == High(last)
    ensures High(last) * HALF + Low(middle) == middle
  {
  }

  // A carry into the high half fell between the high-half reads of iteration k.
  ghost predicate Carried(counter: nat -> nat, k: nat) {
    High(counter(3 * k)) != High(counter(3 * k + 2))
  }

  lemma CarryGrows(counter: nat -> nat, k: nat)
    requires Advancing(counter)
    ensures High(counter(0)) <= High(counter(3 * k)) <= High(counter(3 * k + 2)) < HALF
    ensures High(counter(3 * k + 2)) <= High(counter(3 * (k + 1)))
  {
    HighGrows(counter, 0, 3 * k);
    HighGrows(counter, 3 * k, 3 * k + 2);
    HighGrows(counter, 3 * k + 2, 3 * k + 3);
  }

  // What a call must return after this many retries: the value at the low-half read of the first
  // iteration without a carry, no more retries than carries within the call.
  ghost predicate Untorn(counter: nat -> nat, retries: nat, cycles: nat) {
    && cycles == counter(3 * retries + 1)
    && !Carried(counter, retries) && (forall k: nat :: k < retries ==> Carried(counter, k))
    && retries <= High(counter(3 * retries)) - High(counter(0))
  }

  /** The result is the counter's exact value at the low-half read of the last iteration. The loop
      ends for every such counter, retrying only on a carry into the high half: at most once for
      each carry that falls within the call. */
  method GetMcycle(counter: nat -> nat) returns (cycles: nat)
    requires Advancing(counter)
    ensures exists retries: nat :: Untorn(counter, retries, cycles)
  {
    var mcycleh0, mcycleh1, mcyclel := 0, 1, 0;
    var read: nat := 0;
    ghost var retries: nat := 0;
    while mcycleh0 != mcycleh1
      invariant retries <= High(counter(3 * retries)) - High(counter(0))
      invariant forall k: nat :: k < retries ==> Carried(counter, k)
      invariant if mcycleh0 != mcycleh1 then read == 3 * retries
                else
                  && !Carried(counter, retries) && mcycleh1 == High(counter(3 * retries + 2))
                  && mcyclel == Low(counter(3 * retries + 1))
      decreases HALF - retries, if mcycleh0 != mcycleh1 then 1 else 0
    {
      CarryGrows(counter, retries);
      mcycleh0 := High(counter(read));
      mcyclel := Low(counter(read + 1));
      mcycleh1 := High(counter(read + 2));
      read := read + 3;
      if mcycleh0 != mcycleh1 {
        retries := retries + 1;
      }
    }
    HighGrows(counter, 3 * retries, 3 * retries + 1);
    HighGrows(counter, 3 * retries + 1, 3 * retries + 2);
    Recombine(counter(3 * retries), counter(3 * retries + 1), counter(3 * retries + 2));
    cycles := mcycleh1 * HALF + mcyclel;
    assert Untorn(counter, retries, cycles);
  }

  /** If the counter ticks fewer than 2^32 times during the first two iterations, the second reads
      untorn whenever the first did not. */
  lemma AtMostOneRetry(counter: nat -> nat)
    requires Advancing(counter) && counter(5) < counter(0) + HALF
    ensures !Carried(counter, 0) || !Carried(counter, 1)
  {
    HighGrows(counter, 0, 2);
    HighGrows(counter, 2, 3);
    HighGrows(counter, 3, 5);
  }
}
