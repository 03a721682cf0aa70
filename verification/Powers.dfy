/** Powers of two. */
module Powers {

  function Pow2(n: nat): nat
    ensures Pow2(n) >= 1
  {
    if n == 0 then 1 else 2 * Pow2(n - 1)
  }
}
