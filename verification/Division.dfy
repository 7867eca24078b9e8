/** Products, quotients and remainders, stepwise: the solver is slow where it sees a product of variables. */
module Division {

  /** Number of sectors in `k` clusters. */
  function Sectors(csize: nat, k: nat): nat {
    if k == 0 then 0 else csize + Sectors(csize, k - 1)
  }

  lemma SectorsIsProduct(csize: nat, k: nat)
    ensures Sectors(csize, k) == csize * k
  {
  }

  lemma {:induction false} SectorsMono(csize: nat, a: nat, b: nat)
    requires a <= b
    ensures Sectors(csize, a) <= Sectors(csize, b)
    ensures a < b ==> Sectors(csize, a) + csize <= Sectors(csize, b)
    decreases b
  {
    if a < b {
      SectorsMono(csize, a, b - 1);
    }
  }

  /** `k / csize`; see `QuotIsDivision`. */
  function Quot(csize: nat, k: nat): (q: nat)
    requires csize > 0
    decreases k
  {
    if k < csize then 0 else 1 + Quot(csize, k - csize)
  }

  /** `k % csize`; see `RemIsRemainder`. */
  function Rem(csize: nat, k: nat): (r: nat)
    requires csize > 0
    ensures r < csize
    decreases k
  {
    if k < csize then k else Rem(csize, k - csize)
  }

  lemma {:induction false} QuotRem(csize: nat, k: nat)
    requires csize > 0
    ensures k == Sectors(csize, Quot(csize, k)) + Rem(csize, k)
    decreases k
  {
    if k >= csize {
      QuotRem(csize, k - csize);
    }
  }

  lemma {:induction false} QuotOf(csize: nat, q: nat, r: nat)
    requires r < csize
    ensures Quot(csize, Sectors(csize, q) + r) == q && Rem(csize, Sectors(csize, q) + r) == r
  {
    if q > 0 {
      QuotOf(csize, q - 1, r);
    }
  }

  lemma {:induction false} RemNext(m: nat, x: nat)
    requires m > 0
    ensures Rem(m, x + 1) == if Rem(m, x) + 1 == m then 0 else Rem(m, x) + 1
    decreases x
  {
    if x >= m { RemNext(m, x - m); }
  }

  // ---------- They are what they should be

  lemma ProductAtLeast(b: nat, k: nat)
    requires k >= 1
    ensures b * k >= b
  {
  }

  lemma DivUnique(x: nat, b: nat, q: nat, r: nat, e: nat, s: nat)
    requires x == b * q + r && r < b && x == b * e + s && s < b
    ensures e == q
  {
    if e < q {
      assert b * (q - e) == b * q - b * e;
      ProductAtLeast(b, q - e);
    } else if e > q {
      assert b * (e - q) == b * e - b * q;
      ProductAtLeast(b, e - q);
    }
  }

  lemma DivMod(x: nat, b: nat)
    requires b > 0
    ensures x == b * (x / b) + x % b && 0 <= x % b < b
  {
  }

  lemma Quotient(x: nat, b: nat, q: nat, r: nat)
    requires x == b * q + r && r < b
    ensures x / b == q && x % b == r
  {
    DivMod(x, b);
    DivUnique(x, b, q, r, x / b, x % b);
  }

  lemma RemIsRemainder(m: nat, x: nat)
    requires m > 0
    ensures Rem(m, x) == x % m
  {
    QuotRem(m, x);
    SectorsIsProduct(m, Quot(m, x));
    Quotient(x, m, Quot(m, x), Rem(m, x));
  }

  lemma Regroup(csize: nat, q: nat, p: nat, b: nat)
    requires p == csize * q && b == 512 * csize
    ensures b * q == 512 * p
  {
    assert b * q == (512 * csize) * q == 512 * (csize * q);
  }

  lemma DivideBytes(csize: nat, x: nat, q: nat, r: nat, p: nat, b: nat)
    requires p == csize * q && b == 512 * csize && x / 512 == p + r && r < csize
    ensures x / b == q
  {
    Regroup(csize, q, p, b);
    Quotient(x, b, q, 512 * r + x % 512);
  }

  /** The cluster of byte `x` is found by dividing by the cluster size in bytes. */
  lemma QuotIsDivision(csize: nat, x: nat)
    requires csize > 0
    ensures Quot(csize, x / 512) == x / (512 * csize)
  {
    var q, r := Quot(csize, x / 512), Rem(csize, x / 512);
    QuotRem(csize, x / 512);
    SectorsIsProduct(csize, q);
    DivideBytes(csize, x, q, r, csize * q, 512 * csize);
  }
}
