/**
 * The `GAL16V8` object: built from a decoded fuse map, it reads the mode
 * fuses and the user signature and turns each enabled macrocell into its
 * sum-of-products line.
 */
module Gal16v8Decompiler {
  import opened Wrappers
  import opened JedecMap
  import opened Gal16v8Layout
  import opened Gal16v8Listing

  /** The line printed for macrocell `n`, or `None` when it is used as an input. */
  function MacrocellLine(st: JedecState, n: nat): Option<string>
    requires n < |OlmcConfigs|
  {
    var eq := MacrocellEquation(st, n);
    if eq.None? then None else Some(EquationText(eq.value))
  }

  /**
   * The printed line of macrocell `n`: absent exactly when its AC1 fuse
   * `2120 + n` is set; otherwise the listing of the equation that drives pin
   * `19 - n`, negated exactly when the XOR fuse `2048 + n` is clear, over the
   * products of the kept rows.
   */
  lemma MacrocellLineSpec(st: JedecState, n: nat)
    requires n < |OlmcConfigs|
    ensures ProductsWellFormed(Products(st, n))
    ensures MacrocellLine(st, n) ==
      if st.FuseBit(2120 + n) then None
      else Some(EquationText(Equation(19 - n, !st.FuseBit(2048 + n), Products(st, n))))
  {
    ProductsInRange(st, n);
    MacrocellEquationSpec(st, n);
  }

  /** The loop that copies fuses 2056 to 2119 into the 64-bit user signature. */
  method ReadSignature(st: JedecState) returns (signature: array<bool>)
    ensures fresh(signature) && signature.Length == SignatureBits
    ensures forall k | 0 <= k < SignatureBits :: signature[k] == st.FuseBit(SignatureBase + k)
  {
    signature := new bool[SignatureBits];
    var sigBitnum := 0;
    for bit := SignatureBase to SignatureBase + SignatureBits
      invariant sigBitnum == bit - SignatureBase
      invariant forall k | 0 <= k < sigBitnum :: signature[k] == st.FuseBit(SignatureBase + k)
    {
      signature[sigBitnum] := st.FuseBit(bit);
      sigBitnum := sigBitnum + 1;
    }
  }

  /**
   * One pass of the loop over the macrocells: a macrocell whose AC1 fuse is
   * set is skipped; any other yields its equation and its printed line.
   */
  method DecompileMacrocell(st: JedecState, olmcNum: nat) returns (eq: Option<Equation>, line: Option<string>)
    requires olmcNum < |OlmcConfigs|
    ensures eq == MacrocellEquation(st, olmcNum) && line == MacrocellLine(st, olmcNum)
  {
    var config := OlmcConfigs[olmcNum];
    if st.FuseBit(config.1) {
      // the pin is an input: this macrocell is disabled
      return None, None;
    }
    var colProducts := CollectProducts(st, olmcNum);
    ProductsInRange(st, olmcNum);
    var equation := Equation(config.2, !st.FuseBit(config.0), colProducts);
    var fullProduct := FullProduct(equation);
    eq, line := Some(equation), Some(fullProduct);
  }

  /** The equations of macrocells `0` to `k - 1`, in order. */
  function EquationsUpTo(st: JedecState, k: nat): seq<Option<Equation>>
    requires k <= |OlmcConfigs|
  {
    if k == 0 then [] else EquationsUpTo(st, k - 1) + [MacrocellEquation(st, k - 1)]
  }

  /** The lines of macrocells `0` to `k - 1`, in order. */
  function LinesUpTo(st: JedecState, k: nat): seq<Option<string>>
    requires k <= |OlmcConfigs|
  {
    if k == 0 then [] else LinesUpTo(st, k - 1) + [MacrocellLine(st, k - 1)]
  }

  /** Entry `n` of the first `k` equations is macrocell `n`'s. */
  lemma {:induction false} EquationsUpToAt(st: JedecState, k: nat, n: nat)
    requires n < k <= |OlmcConfigs|
    ensures |EquationsUpTo(st, k)| == k && EquationsUpTo(st, k)[n] == MacrocellEquation(st, n)
  {
    if n < k - 1 {
      EquationsUpToAt(st, k - 1, n);
    } else if k > 1 {
      EquationsUpToAt(st, k - 1, 0);
    }
  }

  /** `[f(0), ..., f(k - 1)]`. */
  function Tabulate<T>(f: nat --> T, k: nat): seq<T>
    requires forall i: nat | i < k :: f.requires(i)
  {
    if k == 0 then [] else Tabulate(f, k - 1) + [f(k - 1)]
  }

  /** Entry `n` of `Tabulate(f, k)` is `f(n)`. */
  lemma {:induction false} TabulateAt<T>(f: nat --> T, k: nat, n: nat)
    requires forall i: nat | i < k :: f.requires(i)
    requires n < k
    ensures |Tabulate(f, k)| == k && Tabulate(f, k)[n] == f(n)
  {
    if n < k - 1 {
      TabulateAt(f, k - 1, n);
    } else if k > 1 {
      TabulateAt(f, k - 1, 0);
    }
  }

  /** The first `k` lines tabulate the line of each macrocell. */
  lemma {:induction false} LinesUpToTabulates(st: JedecState, k: nat)
    requires k <= |OlmcConfigs|
    ensures LinesUpTo(st, k) == Tabulate((n: nat) requires n < |OlmcConfigs| => MacrocellLine(st, n), k)
  {
    if k > 0 {
      LinesUpToTabulates(st, k - 1);
    }
  }

  /** Entry `n` of the first `k` lines is macrocell `n`'s. */
  lemma LinesUpToAt(st: JedecState, k: nat, n: nat)
    requires n < k <= |OlmcConfigs|
    ensures |LinesUpTo(st, k)| == k && LinesUpTo(st, k)[n] == MacrocellLine(st, n)
  {
    LinesUpToTabulates(st, k);
    TabulateAt((n: nat) requires n < |OlmcConfigs| => MacrocellLine(st, n), k, n);
  }

  /** The loop over the eight macrocells. */
  method DecompileMacrocells(st: JedecState) returns (eqs: seq<Option<Equation>>, lines: seq<Option<string>>)
    ensures |eqs| == |OlmcConfigs| == |lines|
    ensures forall n | 0 <= n < |OlmcConfigs| :: eqs[n] == MacrocellEquation(st, n)
    ensures forall n | 0 <= n < |OlmcConfigs| :: lines[n] == MacrocellLine(st, n)
  {
    eqs, lines := [], [];
    for olmcNum := 0 to |OlmcConfigs|
      invariant eqs == EquationsUpTo(st, olmcNum)
      invariant lines == LinesUpTo(st, olmcNum)
    {
      var eq, line := DecompileMacrocell(st, olmcNum);
      eqs, lines := eqs + [eq], lines + [line];
    }
    EquationsUpToAt(st, |OlmcConfigs|, 0);
    LinesUpToAt(st, |OlmcConfigs|, 0);
    forall n | 0 <= n < |OlmcConfigs|
      ensures eqs[n] == MacrocellEquation(st, n) && lines[n] == MacrocellLine(st, n)
    {
      EquationsUpToAt(st, |OlmcConfigs|, n);
      LinesUpToAt(st, |OlmcConfigs|, n);
    }
  }

  class Gal16v8 {
    var syn: bool
    var ac0: bool
    var userSignature: array<bool>
    /** Per macrocell, its equation; `None` when the macrocell is disabled. */
    var equations: seq<Option<Equation>>
    /** Per macrocell, the `full_product` line built for it. */
    var fullProducts: seq<Option<string>>

    /**
     * `GAL16V8::GAL16V8`: the mode fuses, the 64 signature bits, and one
     * equation and line per macrocell, all read through `get_fuse_bit`.
     */
    constructor(jedec: Jedec)
      ensures syn == jedec.GetFuseBit(SynFuse) && ac0 == jedec.GetFuseBit(Ac0Fuse)
      ensures fresh(userSignature) && userSignature.Length == SignatureBits
      ensures forall k | 0 <= k < SignatureBits :: userSignature[k] == jedec.GetFuseBit(SignatureBase + k)
      ensures |equations| == |OlmcConfigs| == |fullProducts|
      ensures forall n | 0 <= n < |OlmcConfigs| :: equations[n] == MacrocellEquation(jedec.State(), n)
      ensures forall n | 0 <= n < |OlmcConfigs| :: fullProducts[n] == MacrocellLine(jedec.State(), n)
    {
      var st := jedec.State();
      syn := jedec.GetFuseBit(SynFuse);
      ac0 := jedec.GetFuseBit(Ac0Fuse);
      var signature := ReadSignature(st);
      var eqs, lines := DecompileMacrocells(st);
      userSignature, equations, fullProducts := signature, eqs, lines;
    }
  }
}
