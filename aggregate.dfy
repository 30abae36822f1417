/**
 * The amounts the engine derives from the prepared rows: column sums over the rows a rule
 * selects, the Final Net Amt tail scan and the INWARD GST neighbour lookup.
 */
module Aggregate {
  import opened Wrappers
  import opened Text
  import opened Decimals
  import opened Report

  // ---------------- selected-row sums ----------------

  /**
   * Which rows a sum takes: those whose normalised cycle is one of a rule's cycles, or the
   * stricter Arbitration Vedict filter (cycle, type in {debit, non_fin}, a non-blank channel).
   */
  datatype Selector = InCycles(cycles: seq<string>) | ArbitrationVerdict

  const ArbitrationCycle := "arbitration vedict"
  const ArbitrationTypes := ["debit", "non_fin"]

  predicate Selects(sel: Selector, r: Row) {
    match sel
    case InCycles(cycles) => CycleKey in r && r[CycleKey] in cycles
    case ArbitrationVerdict =>
      && CycleKey in r && r[CycleKey] == ArbitrationCycle
      && TypeKey in r && r[TypeKey] in ArbitrationTypes
      && Trimmed(r, ChannelColumn) != ""
  }

  /** What one selected row adds: its cell parsed leniently, a missing cell reading as "0". */
  function Contribution(r: Row, column: string): Decimal {
    ToDecimal(Cell(r, column, "0"))
  }

  /** `amt = amt.add(...)` over the rows, top to bottom, from `BigDecimal.ZERO`; unrounded. */
  function SumColumn(rows: seq<Row>, sel: Selector, column: string): Decimal {
    if rows == [] then Zero
    else
      var before := SumColumn(rows[..|rows| - 1], sel, column);
      var r := rows[|rows| - 1];
      if Selects(sel, r) then Add(before, Contribution(r, column)) else before
  }

  /** The accumulating loop of a rule. */
  method SumSelected(rows: seq<Row>, sel: Selector, column: string) returns (amt: Decimal)
    ensures amt == SumColumn(rows, sel, column)
  {
    amt := Zero;
    var i := 0;
    while i < |rows|
      invariant 0 <= i <= |rows|
      invariant amt == SumColumn(rows[..i], sel, column)
    {
      assert rows[..i + 1][..i] == rows[..i];
      var r := rows[i];
      if Selects(sel, r) {
        amt := Add(amt, ToDecimal(Cell(r, column, "0")));
      }
      i := i + 1;
    }
    assert rows[..i] == rows;
  }

  /** The sum over two stretches of rows is the sum of the two sums, scale included. */
  lemma {:induction false} SumColumnAppend(a: seq<Row>, b: seq<Row>, sel: Selector, column: string)
    ensures SumColumn(a + b, sel, column) == Add(SumColumn(a, sel, column), SumColumn(b, sel, column))
    decreases |b|
  {
    if b == [] {
      assert a + b == a;
      AddZero(SumColumn(a, sel, column));
    } else {
      var front := b[..|b| - 1];
      var r := b[|b| - 1];
      SumColumnAppend(a, front, sel, column);
      assert (a + b)[..|a + b| - 1] == a + front;
      assert (a + b)[|a + b| - 1] == r;
      if Selects(sel, r) {
        AddAssociative(SumColumn(a, sel, column), SumColumn(front, sel, column), Contribution(r, column));
      }
    }
  }

  /** A single row adds its cell when selected and nothing when not. */
  lemma SumColumnOfOneRow(r: Row, sel: Selector, column: string)
    ensures SumColumn([r], sel, column) == if Selects(sel, r) then Contribution(r, column) else Zero
  {
    assert [r][..0] == [];
    AddZero(Contribution(r, column));
  }

  /** A row the selector does not take can be removed without changing the sum at all. */
  lemma SumColumnSkipsUnselected(a: seq<Row>, r: Row, b: seq<Row>, sel: Selector, column: string)
    requires !Selects(sel, r)
    ensures SumColumn(a + [r] + b, sel, column) == SumColumn(a + b, sel, column)
  {
    SumColumnAppend(a + [r], b, sel, column);
    SumColumnAppend(a, [r], sel, column);
    SumColumnOfOneRow(r, sel, column);
    AddZero(SumColumn(a, sel, column));
    SumColumnAppend(a, b, sel, column);
  }

  /** Swapping two neighbouring rows does not change the sum: row order is irrelevant. */
  lemma SumColumnSwap(a: seq<Row>, r: Row, q: Row, b: seq<Row>, sel: Selector, column: string)
    ensures SumColumn(a + [r, q] + b, sel, column) == SumColumn(a + [q, r] + b, sel, column)
  {
    var x, y := SumColumn([r], sel, column), SumColumn([q], sel, column);
    assert [r, q] == [r] + [q] && [q, r] == [q] + [r];
    SumColumnAppend(a + [r, q], b, sel, column);
    SumColumnAppend(a + [q, r], b, sel, column);
    SumColumnAppend(a, [r, q], sel, column);
    SumColumnAppend(a, [q, r], sel, column);
    SumColumnAppend([r], [q], sel, column);
    SumColumnAppend([q], [r], sel, column);
    AddCommutative(x, y);
  }

  /** With no selected row the sum stays `BigDecimal.ZERO`. */
  lemma {:induction false} SumColumnOfNoneSelected(rows: seq<Row>, sel: Selector, column: string)
    requires forall i :: 0 <= i < |rows| ==> !Selects(sel, rows[i])
    ensures SumColumn(rows, sel, column) == Zero
  {
    if rows != [] {
      var front := rows[..|rows| - 1];
      assert forall i :: 0 <= i < |front| ==> front[i] == rows[i];
      SumColumnOfNoneSelected(front, sel, column);
    }
  }

  // ---------------- Final Net Amt ----------------

  /** The Final Net amount: the last non-blank Final Net Amt cell, parsed and rounded. */
  function FinalNetOf(rows: seq<Row>): Option<Decimal> {
    match LastNonBlank(rows, FinalNetColumn)
    case None => None
    case Some(v) => Some(Round2(ToDecimal(v)))
  }

  /** The tail scan: from the bottom row up, the first non-blank Final Net Amt wins. */
  method FinalNetTotal(rows: seq<Row>) returns (total: Decimal)
    ensures total == FinalNetOf(rows).GetOr(Zero)
  {
    total := Zero;
    var i := |rows|;
    assert rows[..i] == rows;
    while i > 0
      invariant 0 <= i <= |rows|
      invariant LastNonBlank(rows, FinalNetColumn) == LastNonBlank(rows[..i], FinalNetColumn)
    {
      assert rows[..i][..i - 1] == rows[..i - 1];
      var v := Trim(Cell(rows[i - 1], FinalNetColumn, ""));
      if v != "" {
        total := Round2(ToDecimal(v));
        break;
      }
      i := i - 1;
    }
  }

  /**
   * The Final Net amount is one value, not a sum: that of the lowest row whose cell is
   * non-blank, rounded to two places; there is none exactly when every cell is blank.
   */
  lemma FinalNetIsLastValue(rows: seq<Row>)
    ensures FinalNetOf(rows).None? <==> forall i :: 0 <= i < |rows| ==> Blank(rows[i], FinalNetColumn)
    ensures FinalNetOf(rows).Some? ==>
      FinalNetOf(rows).value.scale == 2
      && exists i :: (0 <= i < |rows| && !Blank(rows[i], FinalNetColumn)
                      && FinalNetOf(rows).value == Round2(ToDecimal(Trimmed(rows[i], FinalNetColumn)))
                      && forall j :: i < j < |rows| ==> Blank(rows[j], FinalNetColumn))
  {
    LastNonBlankIsNearest(rows, FinalNetColumn);
  }

  // ---------------- INWARD GST ----------------

  /** The four amounts the INWARD GST lookup yields; `BigDecimal.ZERO` where nothing was found. */
  datatype Inward = Inward(incomeDebit: Decimal, incomeCredit: Decimal, gstDebit: Decimal, gstCredit: Decimal)

  /** The row's trimmed Inward/Outward cell says "INWARD GST", ignoring case. */
  predicate IsInwardGst(r: Row) {
    EqualsIgnoreCase(Trimmed(r, InwardOutwardColumn), "INWARD GST")
  }

  /** Index of the first INWARD GST row at or after `from`. */
  function FirstInwardFrom(rows: seq<Row>, from: nat): (r: Option<nat>)
    requires from <= |rows|
    ensures r.Some? ==>
      from <= r.value < |rows| && IsInwardGst(rows[r.value]) && forall j :: from <= j < r.value ==> !IsInwardGst(rows[j])
    ensures r.None? ==> forall j :: from <= j < |rows| ==> !IsInwardGst(rows[j])
    decreases |rows| - from
  {
    if from == |rows| then None
    else if IsInwardGst(rows[from]) then Some(from)
    else FirstInwardFrom(rows, from + 1)
  }

  /** Index of the first INWARD GST row, if any. */
  function FirstInwardGst(rows: seq<Row>): (r: Option<nat>)
    ensures r.Some? ==>
      r.value < |rows| && IsInwardGst(rows[r.value]) && forall j :: 0 <= j < r.value ==> !IsInwardGst(rows[j])
    ensures r.None? <==> forall j :: 0 <= j < |rows| ==> !IsInwardGst(rows[j])
  {
    FirstInwardFrom(rows, 0)
  }

  /** A service-fee cell, parsed and rounded; a missing cell reads as "0". */
  function Fee(r: Row, column: string): (d: Decimal)
    ensures d.scale == 2
  {
    Round2(ToDecimal(Cell(r, column, "0")))
  }

  /**
   * The neighbour lookup: the first INWARD GST row gives the GST amounts, the row above it the
   * Income amounts; what is not found stays `BigDecimal.ZERO`.
   */
  function InwardOf(rows: seq<Row>): Inward {
    match FirstInwardGst(rows)
    case None => Inward(Zero, Zero, Zero, Zero)
    case Some(i) =>
      Inward(
        if i > 0 then Fee(rows[i - 1], ServiceFeeDrColumn) else Zero,
        if i > 0 then Fee(rows[i - 1], ServiceFeeCrColumn) else Zero,
        Fee(rows[i], ServiceFeeDrColumn),
        Fee(rows[i], ServiceFeeCrColumn))
  }

  /** The first-match loop of the INWARD GST detection. */
  method InwardAmounts(rows: seq<Row>) returns (inward: Inward)
    ensures inward == InwardOf(rows)
  {
    var incomeDebit, incomeCredit, gstDebit, gstCredit := Zero, Zero, Zero, Zero;
    var i := 0;
    while i < |rows|
      invariant 0 <= i <= |rows|
      invariant FirstInwardGst(rows) == FirstInwardFrom(rows, i)
    {
      var io := Cell(rows[i], InwardOutwardColumn, "");
      if EqualsIgnoreCase(Trim(io), "INWARD GST") {
        if i > 0 {
          var above := rows[i - 1];
          incomeDebit := Round2(ToDecimal(Cell(above, ServiceFeeDrColumn, "0")));
          incomeCredit := Round2(ToDecimal(Cell(above, ServiceFeeCrColumn, "0")));
        }
        var matched := rows[i];
        gstDebit := Round2(ToDecimal(Cell(matched, ServiceFeeDrColumn, "0")));
        gstCredit := Round2(ToDecimal(Cell(matched, ServiceFeeCrColumn, "0")));
        break;
      }
      i := i + 1;
    }
    inward := Inward(incomeDebit, incomeCredit, gstDebit, gstCredit);
  }

  /** Every INWARD amount that was found has scale 2; one that was not is `BigDecimal.ZERO`. */
  lemma InwardFoundOrZero(rows: seq<Row>)
    ensures var w := InwardOf(rows);
      && (FirstInwardGst(rows).None? ==> w == Inward(Zero, Zero, Zero, Zero))
      && (FirstInwardGst(rows).Some? ==> w.gstDebit.scale == 2 && w.gstCredit.scale == 2)
      && (FirstInwardGst(rows).Some? && FirstInwardGst(rows).value > 0 ==> w.incomeDebit.scale == 2 && w.incomeCredit.scale == 2)
      && (FirstInwardGst(rows) == Some(0) ==> w.incomeDebit == Zero && w.incomeCredit == Zero)
  {
  }
}
