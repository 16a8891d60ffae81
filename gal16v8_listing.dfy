/**
 * The text the GAL16V8 decompiler builds for one macrocell, such as
 * `pin19=/{ (pin2 * !pin3) (pin4) }`.
 */
module Gal16v8Listing {
  import opened Text
  import opened Gal16v8Layout

  /** A column as a literal: `pin<n>`, or `!pin<n>` for an inverted column. */
  function LiteralText(c: nat): string
    requires c < |Columns|
  {
    (if Columns[c].1 then "!pin" else "pin") + DecimalText(Columns[c].0)
  }

  predicate ColumnsInRange(term: seq<nat>)
  {
    forall i | 0 <= i < |term| :: term[i] < |Columns|
  }

  /** A product's literals joined by ` * `. */
  function TermText(term: seq<nat>): string
    requires ColumnsInRange(term)
  {
    if term == [] then []
    else TermText(term[..|term| - 1]) + (if |term| == 1 then "" else " * ") + LiteralText(term[|term| - 1])
  }

  /** Each product in parentheses, each preceded by a space. */
  function ProductsText(products: seq<seq<nat>>): string
    requires ProductsWellFormed(products)
  {
    if products == [] then []
    else
      var last := products[|products| - 1];
      assert ColumnsInRange(last);
      ProductsText(products[..|products| - 1]) + " (" + TermText(last) + ")"
  }

  /** `pin<n>=`. */
  function Header(outPin: nat): string
  {
    "pin" + DecimalText(outPin) + "="
  }

  /** The sum of products; a negated sum is wrapped in `/{` and ` }`. */
  function SumText(eq: Equation): string
    requires ProductsWellFormed(eq.products)
  {
    if eq.negated then "/{" + ProductsText(eq.products) + " }" else ProductsText(eq.products)
  }

  /** The `full_product` line of a macrocell. */
  function EquationText(eq: Equation): string
    requires ProductsWellFormed(eq.products)
  {
    Header(eq.outPin) + SumText(eq)
  }

  /** Regrouping four appended pieces of text. */
  lemma Regroup(a: string, b: string, c: string, d: string)
    ensures a + b + c + d == a + (b + c + d)
  {
    assert a + b + c + d == a + (b + c) + d == a + ((b + c) + d);
  }

  /** Appending one more literal to a product's text. */
  lemma TermTextStep(term: seq<nat>, j: nat)
    requires ColumnsInRange(term) && j < |term|
    ensures TermText(term[..j + 1]) == TermText(term[..j]) + (if j == 0 then "" else " * ") + LiteralText(term[j])
  {
    assert term[..j + 1][..j] == term[..j];
  }

  /** Appending one more product to the sum's text. */
  lemma ProductsTextStep(products: seq<seq<nat>>, i: nat)
    requires ProductsWellFormed(products) && i < |products|
    ensures ColumnsInRange(products[i])
    ensures ProductsText(products[..i + 1]) == ProductsText(products[..i]) + " (" + TermText(products[i]) + ")"
  {
    assert products[..i + 1][..i] == products[..i];
  }

  /** The inner loop of `full_product`: one product's literals, separated by ` * `. */
  method AppendTerm(prefix: string, term: seq<nat>) returns (text: string)
    requires ColumnsInRange(term)
    ensures text == prefix + TermText(term)
  {
    text := prefix;
    var firstFuse := true;
    for j := 0 to |term|
      invariant firstFuse == (j == 0)
      invariant text == prefix + TermText(term[..j])
    {
      ghost var done := TermText(term[..j]);
      ghost var separator := if firstFuse then "" else " * ";
      if !firstFuse {
        text := text + " * ";
      }
      assert text == prefix + done + separator;
      var column := Columns[term[j]];
      if column.1 {
        text := text + ("!pin" + DecimalText(column.0));
      } else {
        text := text + ("pin" + DecimalText(column.0));
      }
      assert text == prefix + done + separator + LiteralText(term[j]);
      firstFuse := false;
      TermTextStep(term, j);
      Regroup(prefix, done, separator, LiteralText(term[j]));
    }
    assert term[..|term|] == term;
  }

  /** The loop that appends each product to `full_product`, wrapped when negated. */
  method FullProduct(eq: Equation) returns (text: string)
    requires ProductsWellFormed(eq.products)
    ensures text == EquationText(eq)
  {
    var products := eq.products;
    text := "pin" + DecimalText(eq.outPin) + "=";
    if eq.negated {
      text := text + "/{";
    }
    ghost var head := text;
    for i := 0 to |products|
      invariant text == head + ProductsText(products[..i])
    {
      ProductsTextStep(products, i);
      ghost var done := ProductsText(products[..i]);
      ghost var term := TermText(products[i]);
      text := AppendTerm(text + " (", products[i]);
      assert text == head + done + " (" + term;
      Regroup(head, done, " (", term);
      ghost var partial := done + " (" + term;
      text := text + ")";
      assert text == head + partial + ")" == head + (partial + ")");
    }
    assert products[..|products|] == products;
    if eq.negated {
      text := text + " }";
      Regroup(Header(eq.outPin), "/{", ProductsText(products), " }");
    }
  }

  /** A kept row with no included column still prints, as an empty product ` ()`. */
  lemma EmptyProductText(products: seq<seq<nat>>)
    requires ProductsWellFormed(products)
    ensures ProductsWellFormed(products + [[]])
    ensures ProductsText(products + [[]]) == ProductsText(products) + " ()"
  {
    var ps := products + [[]];
    assert ps[..|ps| - 1] == products;
  }

  /** A non-empty sum prints as ` (` ... `)`. */
  lemma {:induction false} ProductsTextShape(products: seq<seq<nat>>)
    requires ProductsWellFormed(products) && products != []
    ensures |ProductsText(products)| >= 3
    ensures ProductsText(products)[..2] == " ("
    ensures ProductsText(products)[|ProductsText(products)| - 1] == ')'
  {
    var init := products[..|products| - 1];
    if init != [] {
      ProductsTextShape(init);
      var t := ProductsText(init);
      assert ProductsText(products)[..2] == t[..2];
    }
  }

  /**
   * The sum is wrapped in `/{` ... ` }` exactly when the equation is negated,
   * that is when the macrocell's XOR fuse is clear.
   */
  lemma NegationWraps(eq: Equation)
    requires ProductsWellFormed(eq.products)
    ensures var h := Header(eq.outPin);
      var t := EquationText(eq);
      && t[..|h|] == h
      && (eq.negated <==> |t| >= |h| + 2 && t[|h|..|h| + 2] == "/{")
      && (eq.negated ==> t[|t| - 2..] == " }")
      && (!eq.negated ==> t[|h|..] == ProductsText(eq.products))
  {
    var h := Header(eq.outPin);
    var t := EquationText(eq);
    var sum := SumText(eq);
    assert t[|h|..] == sum;
    if eq.negated {
      assert sum[..2] == "/{";
      assert t[|h|..|h| + 2] == sum[..2];
    } else if eq.products != [] {
      ProductsTextShape(eq.products);
      assert t[|h|..|h| + 2] == sum[..2];
    }
  }

  /**
   * A literal reads back as its column: it starts with `!` exactly when the
   * column is odd, and the number after `pin` is the column's pin.
   */
  lemma LiteralTextReads(c: nat)
    requires c < |Columns|
    ensures (LiteralText(c)[0] == '!') <==> c % 2 == 1
    ensures var skip := if c % 2 == 1 then 4 else 3;
      |LiteralText(c)| > skip && LeadingDecimal(LiteralText(c)[skip..]) == ColumnPin(c)
  {
    ColumnTableClosedForm(c);
    var skip := if c % 2 == 1 then 4 else 3;
    assert LiteralText(c)[skip..] == DecimalText(ColumnPin(c));
    DecimalTextRead(ColumnPin(c));
  }

  /** The number after `pin` at the start of a line reads back as the driven pin. */
  lemma HeaderReads(eq: Equation)
    requires ProductsWellFormed(eq.products)
    ensures EquationText(eq)[..3] == "pin"
    ensures LeadingDecimal(EquationText(eq)[3..]) == eq.outPin
  {
    var digits := DecimalText(eq.outPin);
    var rest := "=" + SumText(eq);
    assert EquationText(eq) == "pin" + digits + rest;
    assert EquationText(eq)[3..] == digits + rest;
    LeadingDecimalStops(digits, rest);
    DecimalTextRoundTrip(eq.outPin);
  }
}
