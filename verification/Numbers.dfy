/** Number types and functions shared by the whole model. */
module Numbers {

  type pos = n: nat | n > 0 witness 1

  function Max(a: nat, b: nat): nat {
    if a < b then b else a
  }

  function Pow2(n: nat): (p: nat)
    ensures p > 0
  {
    if n == 0 then 1 else 2 * Pow2(n - 1)
  }
}
