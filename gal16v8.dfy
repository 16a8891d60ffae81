/**
 * The fixed fuse layout of the GAL16V8 and the product terms the decompiler
 * reads out of a fuse map: which macrocells are enabled, which rows of the
 * AND array take part, and which columns each row includes.
 */
module Gal16v8Layout {
  import opened Wrappers
  import opened JedecMap

  /** The SYN mode fuse. */
  const SynFuse: nat := 2192
  /** The AC0 mode fuse. */
  const Ac0Fuse: nat := 2193
  /** The first of the 64 user-signature fuses. */
  const SignatureBase: nat := 2056
  const SignatureBits: nat := 64
  /** The first product-term-disable fuse; each macrocell owns eight. */
  const PtdBase: nat := 2128
  /** Product rows per macrocell. */
  const RowsPerOlmc: nat := 8

  /**
   * The input columns of the AND array: the pin each column reads and
   * whether it reads the inverted signal.
   */
  const Columns: seq<(nat, bool)> := [
    (2, false), (2, true), (19, false), (19, true),
    (3, false), (3, true), (18, false), (18, true),
    (4, false), (4, true), (17, false), (17, true),
    (5, false), (5, true), (16, false), (16, true),
    (6, false), (6, true), (15, false), (15, true),
    (7, false), (7, true), (14, false), (14, true),
    (8, false), (8, true), (13, false), (13, true),
    (9, false), (9, true), (12, false), (12, true)
  ]

  /** Per macrocell: its XOR polarity fuse, its AC1 fuse, and the pin it drives. */
  const OlmcConfigs: seq<(nat, nat, nat)> := [
    (2048, 2120, 19), (2049, 2121, 18), (2050, 2122, 17), (2051, 2123, 16),
    (2052, 2124, 15), (2053, 2125, 14), (2054, 2126, 13), (2055, 2127, 12)
  ]

  /** The pin column `c` reads, in closed form. */
  function ColumnPin(c: nat): nat
    requires c < 32
  {
    if c % 4 < 2 then 2 + c / 4 else 19 - c / 4
  }

  /**
   * Each group of four columns reads one low pin `2 + g` (plain, then
   * inverted) and one high pin `19 - g` (plain, then inverted).
   */
  lemma ColumnGroup(g: nat, k: nat)
    requires g < 8 && k < 4
    ensures Columns[4 * g + k] == (if k < 2 then 2 + g else 19 - g, k % 2 == 1)
  {
    if g < 4 {
      if g < 2 {} else {}
    } else {
      if g < 6 {} else {}
    }
  }

  /**
   * The column table follows one rule: column `c` reads pin `2 + c/4` when
   * `c % 4 < 2` and pin `19 - c/4` otherwise, inverted exactly when `c` is odd.
   */
  lemma ColumnTableClosedForm(c: nat)
    requires c < 32
    ensures |Columns| == 32
    ensures Columns[c] == (ColumnPin(c), c % 2 == 1)
  {
    var g, k := c / 4, c % 4;
    assert c == 4 * g + k;
    assert c % 2 == k % 2 by {
      assert c == 2 * (2 * g) + k;
    }
    ColumnGroup(g, k);
  }

  /** Macrocell `n` has XOR fuse `2048 + n`, AC1 fuse `2120 + n` and drives pin `19 - n`. */
  lemma OlmcTableClosedForm()
    ensures |OlmcConfigs| == 8
    ensures forall n | 0 <= n < |OlmcConfigs| :: OlmcConfigs[n] == (2048 + n, 2120 + n, 19 - n)
  {
    assert OlmcConfigs == seq(8, n requires 0 <= n < 8 => (2048 + n, 2120 + n, 19 - n));
  }

  /** The AND-array fuse for column `c` of row `r` of macrocell `n`. */
  function AndFuse(n: nat, r: nat, c: nat): nat
  {
    n * |OlmcConfigs| * |Columns| + r * |Columns| + c
  }

  /** The product-term-disable fuse of row `r` of macrocell `n`. */
  function PtdFuse(n: nat, r: nat): nat
  {
    PtdBase + n * RowsPerOlmc + r
  }

  /**
   * The AND array is fuses 0 to 2047, laid out as `256n + 32r + c`, so it
   * overlaps none of the XOR, AC1, signature, PTD or mode fuses.
   */
  lemma AndFuseBelow2048(n: nat, r: nat, c: nat)
    requires n < 8 && r < RowsPerOlmc && c < 32
    ensures AndFuse(n, r, c) == 256 * n + 32 * r + c
    ensures AndFuse(n, r, c) < 2048
  {
  }

  /** Distinct (macrocell, row, column) triples read distinct AND fuses. */
  lemma AndFuseInjective(n1: nat, r1: nat, c1: nat, n2: nat, r2: nat, c2: nat)
    requires n1 < 8 && r1 < RowsPerOlmc && c1 < 32
    requires n2 < 8 && r2 < RowsPerOlmc && c2 < 32
    requires AndFuse(n1, r1, c1) == AndFuse(n2, r2, c2)
    ensures n1 == n2 && r1 == r2 && c1 == c2
  {
    AndFuseBelow2048(n1, r1, c1);
    AndFuseBelow2048(n2, r2, c2);
    var q1, q2 := 8 * n1 + r1, 8 * n2 + r2;
    assert 32 * q1 + c1 == 32 * q2 + c2;
    assert q1 == q2;
  }

  /** The PTD fuses lie in `[2128, 2192)`, one per (macrocell, row). */
  lemma PtdFuseRange(n: nat, r: nat)
    requires n < 8 && r < RowsPerOlmc
    ensures 2128 <= PtdFuse(n, r) < SynFuse
  {
  }

  /** Column `c` of row `r` of macrocell `n` is part of the row's product: its fuse is intact (reads 0). */
  predicate Included(st: JedecState, n: nat, r: nat, c: nat)
  {
    !st.FuseBit(AndFuse(n, r, c))
  }

  /** The included columns below `c`, in increasing order. */
  function BlownUpTo(st: JedecState, n: nat, r: nat, c: nat): seq<nat>
  {
    if c == 0 then []
    else BlownUpTo(st, n, r, c - 1) + (if Included(st, n, r, c - 1) then [c - 1] else [])
  }

  /** The `blown_fuses` list of a row: its included columns. */
  function BlownColumns(st: JedecState, n: nat, r: nat): seq<nat>
  {
    BlownUpTo(st, n, r, |Columns|)
  }

  predicate StrictlyIncreasing(s: seq<nat>)
  {
    forall i, j | 0 <= i < j < |s| :: s[i] < s[j]
  }

  /** The columns listed below `c` are exactly the included ones. */
  lemma {:induction false} BlownUpToMembers(st: JedecState, n: nat, r: nat, c: nat)
    ensures forall x: nat :: x in BlownUpTo(st, n, r, c) <==> x < c && Included(st, n, r, x)
  {
    if c > 0 {
      BlownUpToMembers(st, n, r, c - 1);
    }
  }

  /** They are listed in increasing order. */
  lemma {:induction false} BlownUpToSorted(st: JedecState, n: nat, r: nat, c: nat)
    ensures StrictlyIncreasing(BlownUpTo(st, n, r, c))
  {
    if c > 0 {
      BlownUpToSorted(st, n, r, c - 1);
      BlownUpToMembers(st, n, r, c - 1);
      var prev := BlownUpTo(st, n, r, c - 1);
      assert forall i | 0 <= i < |prev| :: prev[i] in prev;
    }
  }

  /** All `c` columns are listed exactly when all are included. */
  lemma {:induction false} BlownUpToLength(st: JedecState, n: nat, r: nat, c: nat)
    ensures |BlownUpTo(st, n, r, c)| <= c
    ensures |BlownUpTo(st, n, r, c)| == c <==> forall x: nat | x < c :: Included(st, n, r, x)
  {
    if c > 0 {
      BlownUpToLength(st, n, r, c - 1);
    }
  }

  /**
   * A row is kept when its PTD fuse is set and at least one of its 32
   * columns is cut; a row with every column included is dropped.
   */
  predicate RowKept(st: JedecState, n: nat, r: nat)
  {
    st.FuseBit(PtdFuse(n, r)) && |BlownColumns(st, n, r)| != |Columns|
  }

  /** The kept rows below `r`, in increasing order. */
  function KeptRows(st: JedecState, n: nat, r: nat): seq<nat>
  {
    if r == 0 then []
    else KeptRows(st, n, r - 1) + (if RowKept(st, n, r - 1) then [r - 1] else [])
  }

  /** The `col_products` list built from the rows below `r`. */
  function ProductsUpTo(st: JedecState, n: nat, r: nat): seq<seq<nat>>
  {
    if r == 0 then []
    else ProductsUpTo(st, n, r - 1) + (if RowKept(st, n, r - 1) then [BlownColumns(st, n, r - 1)] else [])
  }

  /** The product terms of macrocell `n`. */
  function Products(st: JedecState, n: nat): seq<seq<nat>>
  {
    ProductsUpTo(st, n, RowsPerOlmc)
  }

  /**
   * Row selection: the products are the included-column lists of the kept
   * rows, one per kept row and in row order; a row is kept exactly when its
   * PTD fuse is set and not all of its columns are included.
   */
  lemma {:induction false} RowSelection(st: JedecState, n: nat, r: nat)
    ensures forall x: nat :: x in KeptRows(st, n, r) <==> x < r && RowKept(st, n, x)
    ensures StrictlyIncreasing(KeptRows(st, n, r))
    ensures |ProductsUpTo(st, n, r)| == |KeptRows(st, n, r)| <= r
    ensures forall i | 0 <= i < |KeptRows(st, n, r)| ::
      ProductsUpTo(st, n, r)[i] == BlownColumns(st, n, KeptRows(st, n, r)[i])
  {
    if r > 0 {
      RowSelection(st, n, r - 1);
      var prev := KeptRows(st, n, r - 1);
      assert forall i | 0 <= i < |prev| :: prev[i] in prev;
    }
  }

  /** Every column a product lists is a column of the array. */
  predicate ProductsWellFormed(products: seq<seq<nat>>)
  {
    forall i, j | 0 <= i < |products| && 0 <= j < |products[i]| :: products[i][j] < |Columns|
  }

  lemma ProductsInRange(st: JedecState, n: nat)
    ensures ProductsWellFormed(Products(st, n))
  {
    RowSelection(st, n, RowsPerOlmc);
    forall i, j | 0 <= i < |Products(st, n)| && 0 <= j < |Products(st, n)[i]|
      ensures Products(st, n)[i][j] < |Columns|
    {
      var r := KeptRows(st, n, RowsPerOlmc)[i];
      BlownUpToMembers(st, n, r, |Columns|);
      assert Products(st, n)[i][j] in BlownColumns(st, n, r);
    }
  }

  /** The sum of products a macrocell drives: its pin, its polarity and its terms. */
  datatype Equation = Equation(outPin: nat, negated: bool, products: seq<seq<nat>>)

  /**
   * The equation of macrocell `n`, or `None` when its AC1 fuse marks the
   * pin as an input.
   */
  function MacrocellEquation(st: JedecState, n: nat): (eq: Option<Equation>)
    requires n < |OlmcConfigs|
    ensures eq.Some? ==> ProductsWellFormed(eq.value.products)
  {
    ProductsInRange(st, n);
    var (xorFuse, ac1Fuse, outPin) := OlmcConfigs[n];
    if st.FuseBit(ac1Fuse) then None
    else Some(Equation(outPin, !st.FuseBit(xorFuse), Products(st, n)))
  }

  /**
   * Macrocell `n` yields no equation exactly when fuse `2120 + n` is set;
   * otherwise it drives pin `19 - n`, is negated exactly when fuse
   * `2048 + n` is clear, and its terms are the kept rows' products.
   */
  lemma MacrocellEquationSpec(st: JedecState, n: nat)
    requires n < 8
    ensures MacrocellEquation(st, n).None? <==> st.FuseBit(2120 + n)
    ensures MacrocellEquation(st, n).Some? ==>
      && MacrocellEquation(st, n).value.outPin == 19 - n
      && (MacrocellEquation(st, n).value.negated <==> !st.FuseBit(2048 + n))
      && MacrocellEquation(st, n).value.products == Products(st, n)
      && ProductsWellFormed(MacrocellEquation(st, n).value.products)
  {
    OlmcTableClosedForm();
    ProductsInRange(st, n);
  }

  /** The loop over the columns of one row, collecting the included ones. */
  method CollectBlownFuses(st: JedecState, n: nat, r: nat) returns (blown: seq<nat>)
    ensures blown == BlownColumns(st, n, r)
  {
    blown := [];
    for column := 0 to |Columns|
      invariant blown == BlownUpTo(st, n, r, column)
    {
      var fuse := n * |OlmcConfigs| * |Columns| + r * |Columns| + column;
      if !st.FuseBit(fuse) {
        blown := blown + [column];
      }
    }
  }

  /** The loop over the eight rows of a macrocell, collecting the kept products. */
  method CollectProducts(st: JedecState, n: nat) returns (colProducts: seq<seq<nat>>)
    ensures colProducts == Products(st, n)
  {
    colProducts := [];
    for row := 0 to RowsPerOlmc
      invariant colProducts == ProductsUpTo(st, n, row)
    {
      if !st.FuseBit(PtdBase + n * RowsPerOlmc + row) {
        continue;
      }
      var blown := CollectBlownFuses(st, n, row);
      if |blown| != 32 {
        colProducts := colProducts + [blown];
      }
    }
  }
}
