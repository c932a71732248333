/** Bit operations on naturals, as far as packing two numbers into one word needs them. */
module Bits {

  function Pow2(k: nat): (p: nat)
    ensures p > 0
  {
    if k == 0 then 1 else 2 * Pow2(k - 1)
  }

  function Or(a: nat, b: nat): nat
    decreases a
  {
    if a == 0 then b
    else if b == 0 then a
    else 2 * Or(a / 2, b / 2) + if a % 2 == 1 || b % 2 == 1 then 1 else 0
  }

  function And(a: nat, b: nat): nat
    decreases a
  {
    if a == 0 || b == 0 then 0
    else 2 * And(a / 2, b / 2) + if a % 2 == 1 && b % 2 == 1 then 1 else 0
  }

  function ShiftLeft(a: nat, k: nat): nat {
    if k == 0 then a else 2 * ShiftLeft(a, k - 1)
  }

  function ShiftRight(a: nat, k: nat): nat {
    if k == 0 then a else ShiftRight(a / 2, k - 1)
  }

  /** The word with these k low bits. */
  lemma {:induction false} OrIsSum(low: nat, high: nat, k: nat)
    requires low < Pow2(k)
    ensures Or(low, ShiftLeft(high, k)) == low + ShiftLeft(high, k)
  {
    if k > 0 && low > 0 && ShiftLeft(high, k) > 0 {
      OrIsSum(low / 2, high, k - 1);
    }
  }

  lemma {:induction false} AndOfSum(low: nat, high: nat, k: nat)
    requires low < Pow2(k)
    ensures And(low + ShiftLeft(high, k), Pow2(k) - 1) == low
  {
    if k > 0 {
      AndOfSum(low / 2, high, k - 1);
      var word, mask := low + ShiftLeft(high, k), Pow2(k) - 1;
      assert word / 2 == low / 2 + ShiftLeft(high, k - 1) && word % 2 == low % 2;
      assert mask / 2 == Pow2(k - 1) - 1 && mask % 2 == 1;
    }
  }

  lemma {:induction false} ShiftedBack(low: nat, high: nat, k: nat)
    requires low < Pow2(k)
    ensures ShiftRight(low + ShiftLeft(high, k), k) == high
  {
    if k > 0 {
      assert (low + ShiftLeft(high, k)) / 2 == low / 2 + ShiftLeft(high, k - 1);
      ShiftedBack(low / 2, high, k - 1);
    }
  }

  lemma {:induction false} AndIsBelow(a: nat, b: nat)
    ensures And(a, b) <= b
    decreases a
  {
    if a > 0 && b > 0 {
      AndIsBelow(a / 2, b / 2);
    }
  }

  /** Two numbers packed into one word come out again exactly when the low one fits below the shift. */
  lemma PackedIffFits(low: nat, high: nat, k: nat)
    ensures And(Or(low, ShiftLeft(high, k)), Pow2(k) - 1) == low <==> low < Pow2(k)
    ensures low < Pow2(k) ==> ShiftRight(Or(low, ShiftLeft(high, k)), k) == high
  {
    AndIsBelow(Or(low, ShiftLeft(high, k)), Pow2(k) - 1);
    if low < Pow2(k) {
      Unpacked(low, high, k);
    }
  }

  lemma Unpacked(low: nat, high: nat, k: nat)
    requires low < Pow2(k)
    ensures And(Or(low, ShiftLeft(high, k)), Pow2(k) - 1) == low
    ensures ShiftRight(Or(low, ShiftLeft(high, k)), k) == high
  {
    OrIsSum(low, high, k);
    SumUnpacks(Or(low, ShiftLeft(high, k)), low, high, k);
  }

  lemma SumUnpacks(word: nat, low: nat, high: nat, k: nat)
    requires low < Pow2(k) && word == low + ShiftLeft(high, k)
    ensures And(word, Pow2(k) - 1) == low && ShiftRight(word, k) == high
  {
    AndOfSum(low, high, k);
    ShiftedBack(low, high, k);
  }
}
