/** Small numeric helpers shared by the glyph preprocessing model. */
module Utils {

  /** 2^32: the modulus of Rust's `usize as u32` truncating cast. */
  const U32_MODULUS: nat := 0x1_0000_0000

  /** Rust's `n as u32` on a non-negative `usize`: keeps the low 32 bits. */
  function AsU32(n: nat): (r: nat)
    ensures r < U32_MODULUS
    ensures n < U32_MODULUS ==> r == n
    ensures (n - r) % U32_MODULUS == 0
  {
    n % U32_MODULUS
  }

  /** The larger of three keys, starting from the first and replacing the
      running maximum only on a strictly greater argument. On a tie the
      earliest maximal argument is the one kept. */
  function Max3(n0: real, n1: real, n2: real): (r: real)
    ensures r >= n0 && r >= n1 && r >= n2
    ensures r == n0 || r == n1 || r == n2
  {
    var m := if n1 > n0 then n1 else n0;
    if n2 > m then n2 else m
  }

  /** The smaller of three keys, replacing the running minimum only on a
      strictly smaller argument. */
  function Min3(n0: real, n1: real, n2: real): (r: real)
    ensures r <= n0 && r <= n1 && r <= n2
    ensures r == n0 || r == n1 || r == n2
  {
    var m := if n1 < n0 then n1 else n0;
    if n2 < m then n2 else m
  }

  /** Which argument `Max3` hands back: the first one that no later argument
      strictly exceeds among those seen so far. Position 0 is kept unless a
      strictly greater value follows; position 1 is kept only if it strictly
      beat position 0. */
  lemma Max3EarliestMaximal(n0: real, n1: real, n2: real)
    ensures var r := Max3(n0, n1, n2);
      || (r == n0 && n1 <= n0 && n2 <= n0)
      || (r == n1 && n0 < n1 && n2 <= n1)
      || (r == n2 && n0 < n2 && n1 < n2)
  {
  }

  /** The mirror statement for `Min3`. */
  lemma Min3EarliestMinimal(n0: real, n1: real, n2: real)
    ensures var r := Min3(n0, n1, n2);
      || (r == n0 && n0 <= n1 && n0 <= n2)
      || (r == n1 && n1 < n0 && n1 <= n2)
      || (r == n2 && n2 < n0 && n2 < n1)
  {
  }

  /** On the same three arguments the minimum never exceeds the maximum. */
  lemma Min3AtMostMax3(n0: real, n1: real, n2: real)
    ensures Min3(n0, n1, n2) <= Max3(n0, n1, n2)
  {
  }
}
