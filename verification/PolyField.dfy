/** The arithmetic of Poly1305: section 2.5 of RFC 8439 as polynomial evaluation
    modulo 2^130 - 5, and the identities the five 26-bit limbs rest on. */
module PolyField {
  import opened Bytes

  const B1 := 0x400_0000
  const B2 := 0x10_0000_0000_0000
  const B3 := 0x4000_0000_0000_0000_0000
  const B4 := 0x100_0000_0000_0000_0000_0000_0000
  /** 2^130 - 5 */
  const P := 0x3_ffff_ffff_ffff_ffff_ffff_ffff_ffff_fffb
  const TWO128 := 0x1_0000_0000_0000_0000_0000_0000_0000_0000

  function Value(h0: int, h1: int, h2: int, h3: int, h4: int): int {
    h0 + B1 * h1 + B2 * h2 + B3 * h3 + B4 * h4
  }

  lemma Distribute(a: int, r0: int, r1: int, r2: int, r3: int, r4: int)
    ensures a * Value(r0, r1, r2, r3, r4) == a * r0 + B1 * (a * r1) + B2 * (a * r2) + B3 * (a * r3) + B4 * (a * r4)
  {
  }

  lemma Product(h0: int, h1: int, h2: int, h3: int, h4: int, r: int)
    ensures Value(h0, h1, h2, h3, h4) * r == h0 * r + B1 * (h1 * r) + B2 * (h2 * r) + B3 * (h3 * r) + B4 * (h4 * r)
  {
  }

  /** The terms of limb products that weigh 2^130 or more, divided by 2^130. */
  function Overflow(h1: int, h2: int, h3: int, h4: int, r1: int, r2: int, r3: int, r4: int): int {
    h1 * r4 + h2 * r3 + h3 * r2 + h4 * r1
    + B1 * (h2 * r4 + h3 * r3 + h4 * r2)
    + B2 * (h3 * r4 + h4 * r3)
    + B3 * (h4 * r4)
  }

  /** 2^130 = P + 5: products past the top limb come back times five. */
  lemma FoldTerms(p00: int, p01: int, p02: int, p03: int, p04: int, p10: int, p11: int, p12: int, p13: int, p14: int,
          p20: int, p21: int, p22: int, p23: int, p24: int, p30: int, p31: int, p32: int, p33: int, p34: int,
          p40: int, p41: int, p42: int, p43: int, p44: int)
    ensures (p00 + B1 * p01 + B2 * p02 + B3 * p03 + B4 * p04)
            + B1 * (p10 + B1 * p11 + B2 * p12 + B3 * p13 + B4 * p14)
            + B2 * (p20 + B1 * p21 + B2 * p22 + B3 * p23 + B4 * p24)
            + B3 * (p30 + B1 * p31 + B2 * p32 + B3 * p33 + B4 * p34)
            + B4 * (p40 + B1 * p41 + B2 * p42 + B3 * p43 + B4 * p44)
         == (p00 + 5 * p14 + 5 * p23 + 5 * p32 + 5 * p41)
            + B1 * (p01 + p10 + 5 * p24 + 5 * p33 + 5 * p42)
            + B2 * (p02 + p11 + p20 + 5 * p34 + 5 * p43)
            + B3 * (p03 + p12 + p21 + p30 + 5 * p44)
            + B4 * (p04 + p13 + p22 + p31 + p40)
            + P * ((p14 + p23 + p32 + p41) + B1 * (p24 + p33 + p42) + B2 * (p34 + p43) + B3 * (p44))
  {
  }

  lemma Times5(a: int, b: int)
    ensures a * (5 * b) == 5 * (a * b)
  {
  }

  /** A sum of five limb products. */
  function Row(h0: int, h1: int, h2: int, h3: int, h4: int, a0: int, a1: int, a2: int, a3: int, a4: int): int {
    h0 * a0 + h1 * a1 + h2 * a2 + h3 * a3 + h4 * a4
  }

  /** The five limb sums of a product, with the multiples s_j = 5 r_j, denote the
      product modulo P. */
  lemma FoldedProduct(h0: int, h1: int, h2: int, h3: int, h4: int, r0: int, r1: int, r2: int, r3: int, r4: int)
    ensures Value(h0, h1, h2, h3, h4) * Value(r0, r1, r2, r3, r4)
         == Value(Row(h0, h1, h2, h3, h4, r0, 5 * r4, 5 * r3, 5 * r2, 5 * r1),
                  Row(h0, h1, h2, h3, h4, r1, r0, 5 * r4, 5 * r3, 5 * r2),
                  Row(h0, h1, h2, h3, h4, r2, r1, r0, 5 * r4, 5 * r3),
                  Row(h0, h1, h2, h3, h4, r3, r2, r1, r0, 5 * r4),
                  Row(h0, h1, h2, h3, h4, r4, r3, r2, r1, r0))
            + P * Overflow(h1, h2, h3, h4, r1, r2, r3, r4)
  {
    var r := Value(r0, r1, r2, r3, r4);
    Product(h0, h1, h2, h3, h4, r);
    Distribute(h0, r0, r1, r2, r3, r4);
    Distribute(h1, r0, r1, r2, r3, r4);
    Distribute(h2, r0, r1, r2, r3, r4);
    Distribute(h3, r0, r1, r2, r3, r4);
    Distribute(h4, r0, r1, r2, r3, r4);
    Times5(h1, r4); Times5(h2, r3); Times5(h3, r2); Times5(h4, r1);
    Times5(h2, r4); Times5(h3, r3); Times5(h4, r2);
    Times5(h3, r4); Times5(h4, r3); Times5(h4, r4);
    FoldTerms(h0 * r0, h0 * r1, h0 * r2, h0 * r3, h0 * r4, h1 * r0, h1 * r1, h1 * r2, h1 * r3, h1 * r4, h2 * r0,
            h2 * r1, h2 * r2, h2 * r3, h2 * r4, h3 * r0, h3 * r1, h3 * r2, h3 * r3, h3 * r4, h4 * r0, h4 * r1,
            h4 * r2, h4 * r3, h4 * r4);
  }
}
