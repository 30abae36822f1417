/**
 * The voucher build: one line per template entry, in template order, its amount chosen by the
 * entry's rule.
 */
module Voucher {
  import opened Wrappers
  import opened Decimals
  import opened Report
  import opened Aggregate
  import opened Tables
  import opened Narration

  /** A voucher line; an absent slot is a `null` amount, left empty in the sheet. */
  datatype VoucherRow = VoucherRow(
    accountNo: string, debit: Option<Decimal>, credit: Option<Decimal>, narration: string, description: string)

  /** `amt.equals(BigDecimal.ZERO) ? null : amt`: only zero at scale 0 is dropped, 0.00 is kept. */
  function Slot(d: Decimal): (r: Option<Decimal>)
    ensures r.None? <==> d == Zero
    ensures r.Some? ==> r.value == d
  {
    if d == Zero then None else Some(d)
  }

  const FinalTag := "final"
  const InwardDebitTag := "inward_dr"
  const InwardCreditTag := "inward_cr"

  predicate HasSpecial(rule: Option<Rule>, tag: string) {
    rule.Some? && rule.value.special == Some(tag)
  }

  /** The rounded sum an ordinary rule makes; a rule without a column sums nothing. */
  function RuleAmount(rule: Option<Rule>, rows: seq<Row>): Decimal {
    var cycles := if rule.Some? && rule.value.cycles.Some? then rule.value.cycles.value else [];
    Round2(if rule.Some? && rule.value.sumCol.Some? then SumColumn(rows, InCycles(cycles), rule.value.sumCol.value) else Zero)
  }

  /**
   * The line for one template entry, given its rule (`RULES.get` of its description), the prepared rows, the Final Net amount and the
   * INWARD amounts: the branches of the build loop, tried in the engine's order.
   */
  function LineFor(t: TemplateRow, rule: Option<Rule>, rows: seq<Row>, finalNet: Decimal, inward: Inward, l: Labels): VoucherRow {
    var narration := Narrate(t.template, l);
    var desc := t.description;
    if IsSpacer(t) then VoucherRow("", None, None, narration, desc)
    else if HasSpecial(rule, FinalTag) then VoucherRow(t.accountNo, Slot(finalNet), None, narration, desc)
    else if HasSpecial(rule, InwardDebitTag) then
      VoucherRow(t.accountNo, Slot(if desc == "Income Debit" then inward.incomeDebit else inward.gstDebit), None, narration, desc)
    else if HasSpecial(rule, InwardCreditTag) then
      VoucherRow(t.accountNo, None, Slot(if desc == "Income Credit" then inward.incomeCredit else inward.gstCredit), narration, desc)
    else if desc == "Arbitration Vedict" then
      VoucherRow(t.accountNo, Slot(Round2(SumColumn(rows, ArbitrationVerdict, SetAmtDrColumn))), None, narration, desc)
    else if rule.Some? && rule.value.side == Some("credit") then
      VoucherRow(t.accountNo, None, Slot(RuleAmount(rule, rows)), narration, desc)
    else
      VoucherRow(t.accountNo, Slot(RuleAmount(rule, rows)), None, narration, desc)
  }

  /** The voucher: the template's lines in order. */
  function VoucherOf(rows: seq<Row>, finalNet: Decimal, inward: Inward, l: Labels): (v: seq<VoucherRow>)
    ensures |v| == |Template|
  {
    seq(|Template|, i requires 0 <= i < |Template| => LineFor(Template[i], RuleFor(Template[i].description), rows, finalNet, inward, l))
  }

  /** One pass of the build loop. */
  method BuildLine(t: TemplateRow, rows: seq<Row>, finalNet: Decimal, inward: Inward, l: Labels) returns (line: VoucherRow)
    ensures line == LineFor(t, RuleFor(t.description), rows, finalNet, inward, l)
  {
    var narration := Narrate(t.template, l);
    var desc := t.description;
    if t.accountNo == "" && desc == "" {
      return VoucherRow("", None, None, narration, desc);
    }
    var rule := RuleFor(desc);
    if rule.Some? && rule.value.special == Some(FinalTag) {
      return VoucherRow(t.accountNo, Slot(finalNet), None, narration, desc);
    }
    if rule.Some? && rule.value.special == Some(InwardDebitTag) {
      var amt := if desc == "Income Debit" then inward.incomeDebit else inward.gstDebit;
      return VoucherRow(t.accountNo, Slot(amt), None, narration, desc);
    }
    if rule.Some? && rule.value.special == Some(InwardCreditTag) {
      var amt := if desc == "Income Credit" then inward.incomeCredit else inward.gstCredit;
      return VoucherRow(t.accountNo, None, Slot(amt), narration, desc);
    }
    if desc == "Arbitration Vedict" {
      var amt := SumSelected(rows, ArbitrationVerdict, SetAmtDrColumn);
      amt := Round2(amt);
      return VoucherRow(t.accountNo, Slot(amt), None, narration, desc);
    }
    var cycles := if rule.Some? && rule.value.cycles.Some? then rule.value.cycles.value else [];
    var amt := Zero;
    if rule.Some? && rule.value.sumCol.Some? {
      amt := SumSelected(rows, InCycles(cycles), rule.value.sumCol.value);
    }
    amt := Round2(amt);
    if rule.Some? && rule.value.side == Some("credit") {
      line := VoucherRow(t.accountNo, None, Slot(amt), narration, desc);
    } else {
      line := VoucherRow(t.accountNo, Slot(amt), None, narration, desc);
    }
  }

  /** The build loop: appends one line per template entry. */
  method BuildVoucher(rows: seq<Row>, finalNet: Decimal, inward: Inward, l: Labels) returns (voucher: seq<VoucherRow>)
    ensures voucher == VoucherOf(rows, finalNet, inward, l)
  {
    ghost var spec := VoucherOf(rows, finalNet, inward, l);
    voucher := [];
    var i := 0;
    while i < |Template|
      invariant 0 <= i <= |Template|
      invariant |voucher| == i
      invariant forall k :: 0 <= k < i ==> voucher[k] == spec[k]
    {
      var line := BuildLine(Template[i], rows, finalNet, inward, l);
      assert line == spec[i];
      ExtendAgreeing(voucher, spec, line);
      voucher := voucher + [line];
      i := i + 1;
    }
  }

  /** Appending the next element of `spec` to a prefix that agrees with it keeps the agreement. */
  lemma ExtendAgreeing<T>(done: seq<T>, spec: seq<T>, next: T)
    requires |done| < |spec| && next == spec[|done|]
    requires forall k :: 0 <= k < |done| ==> done[k] == spec[k]
    ensures forall k :: 0 <= k < |done| + 1 ==> (done + [next])[k] == spec[k]
  {
  }

  // ---------------- what the voucher says, line by line ----------------

  /** The voucher the engine builds from the prepared rows. */
  function VoucherFor(rows: seq<Row>, l: Labels): (v: seq<VoucherRow>)
    ensures |v| == |Template|
  {
    VoucherOf(rows, FinalNetOf(rows).GetOr(Zero), InwardOf(rows), l)
  }

  /** Every line carries its entry's account (none for a spacer), description and substituted pattern. */
  lemma LinesFollowTemplate(rows: seq<Row>, finalNet: Decimal, inward: Inward, l: Labels, i: nat)
    requires i < |Template|
    ensures var line := VoucherOf(rows, finalNet, inward, l)[i];
      && line.accountNo == Template[i].accountNo
      && line.description == Template[i].description
      && line.narration == Narrate(Template[i].template, l)
  {
    var t := Template[i];
    assert VoucherOf(rows, finalNet, inward, l)[i] == LineFor(t, RuleFor(t.description), rows, finalNet, inward, l);
  }

  /** No line ever has both a debit and a credit. */
  lemma NeverBothSlots(rows: seq<Row>, finalNet: Decimal, inward: Inward, l: Labels, i: nat)
    requires i < |Template|
    ensures var line := VoucherOf(rows, finalNet, inward, l)[i];
      line.debit.None? || line.credit.None?
  {
    var t := Template[i];
    assert VoucherOf(rows, finalNet, inward, l)[i] == LineFor(t, RuleFor(t.description), rows, finalNet, inward, l);
  }

  /** The three spacer lines have no account, no amount and an empty narration. */
  lemma SpacersAreBlank(rows: seq<Row>, finalNet: Decimal, inward: Inward, l: Labels, i: nat)
    requires i < |Template| && IsSpacer(Template[i])
    ensures var line := VoucherOf(rows, finalNet, inward, l)[i];
      line.accountNo == "" && line.debit.None? && line.credit.None? && line.narration == ""
  {
    var t := Template[i];
    assert t.template == "";
    assert VoucherOf(rows, finalNet, inward, l)[i] == LineFor(t, RuleFor(t.description), rows, finalNet, inward, l);
    NarrateLiteral("", l);
  }

  /** A line whose rule is special: which amount lands in which slot. */
  lemma SpecialLine(t: TemplateRow, rows: seq<Row>, finalNet: Decimal, inward: Inward, l: Labels, tag: string)
    requires !IsSpacer(t)
    ensures var line := LineFor(t, Some(Special(tag)), rows, finalNet, inward, l);
      && (tag == FinalTag ==> line.debit == Slot(finalNet) && line.credit.None?)
      && (tag == InwardDebitTag ==>
            line.credit.None? && line.debit == Slot(if t.description == "Income Debit" then inward.incomeDebit else inward.gstDebit))
      && (tag == InwardCreditTag ==>
            line.debit.None? && line.credit == Slot(if t.description == "Income Credit" then inward.incomeCredit else inward.gstCredit))
  {
  }

  /** A line with an ordinary rule: the rounded sum sits in the credit slot for side "credit", else in the debit slot. */
  lemma OrdinaryLine(t: TemplateRow, rule: Rule, rows: seq<Row>, finalNet: Decimal, inward: Inward, l: Labels)
    requires !IsSpacer(t) && rule.special.None? && t.description != "Arbitration Vedict"
    ensures var line := LineFor(t, Some(rule), rows, finalNet, inward, l);
      var amt := Slot(RuleAmount(Some(rule), rows));
      if rule.side == Some("credit") then line.credit == amt && line.debit.None? else line.debit == amt && line.credit.None?
  {
  }

  /** The slots the INWARD amounts give: an amount that was not found is no amount. */
  lemma InwardSlots(rows: seq<Row>)
    ensures var w := InwardOf(rows);
      && Slot(w.incomeDebit) == (match FirstInwardGst(rows)
           case Some(i) => if i > 0 then Some(Fee(rows[i - 1], ServiceFeeDrColumn)) else None
           case None => None)
      && Slot(w.incomeCredit) == (match FirstInwardGst(rows)
           case Some(i) => if i > 0 then Some(Fee(rows[i - 1], ServiceFeeCrColumn)) else None
           case None => None)
      && Slot(w.gstDebit) == (match FirstInwardGst(rows)
           case Some(i) => Some(Fee(rows[i], ServiceFeeDrColumn))
           case None => None)
      && Slot(w.gstCredit) == (match FirstInwardGst(rows)
           case Some(i) => Some(Fee(rows[i], ServiceFeeCrColumn))
           case None => None)
  {
  }

  /**
   * The Final Net Amt line debits the Final Net amount, as the bottom-most non-blank cell gives
   * it, and has no debit only when there is no such cell.
   */
  lemma FinalNetLine(rows: seq<Row>, l: Labels, i: nat)
    requires i < |Template| && Template[i].description == "Final Net Amt"
    ensures var line := VoucherFor(rows, l)[i];
      line.debit == FinalNetOf(rows) && line.credit.None?
  {
    var t := Template[i];
    assert RuleFor("Final Net Amt") == Some(Special(FinalTag));
    SpecialLine(t, rows, FinalNetOf(rows).GetOr(Zero), InwardOf(rows), l, FinalTag);
  }

  /** The Income lines read the row above the first INWARD GST row; none from row 0 or without a match. */
  lemma IncomeDebitLine(rows: seq<Row>, l: Labels, i: nat)
    requires i < |Template| && Template[i].description == "Income Debit"
    ensures var line := VoucherFor(rows, l)[i];
      && line.credit.None?
      && line.debit == match FirstInwardGst(rows)
         case Some(k) => if k > 0 then Some(Fee(rows[k - 1], ServiceFeeDrColumn)) else None
         case None => None
  {
    assert RuleFor("Income Debit") == Some(Special(InwardDebitTag));
    SpecialLine(Template[i], rows, FinalNetOf(rows).GetOr(Zero), InwardOf(rows), l, InwardDebitTag);
    InwardSlots(rows);
  }

  lemma IncomeCreditLine(rows: seq<Row>, l: Labels, i: nat)
    requires i < |Template| && Template[i].description == "Income Credit"
    ensures var line := VoucherFor(rows, l)[i];
      && line.debit.None?
      && line.credit == match FirstInwardGst(rows)
         case Some(k) => if k > 0 then Some(Fee(rows[k - 1], ServiceFeeCrColumn)) else None
         case None => None
  {
    assert RuleFor("Income Credit") == Some(Special(InwardCreditTag));
    SpecialLine(Template[i], rows, FinalNetOf(rows).GetOr(Zero), InwardOf(rows), l, InwardCreditTag);
    InwardSlots(rows);
  }

  /** The GST lines read the first INWARD GST row itself; none only when there is no such row. */
  lemma GstDebitLine(rows: seq<Row>, l: Labels, i: nat)
    requires i < |Template| && Template[i].description == "GST Debit"
    ensures var line := VoucherFor(rows, l)[i];
      && line.credit.None?
      && line.debit == match FirstInwardGst(rows)
         case Some(k) => Some(Fee(rows[k], ServiceFeeDrColumn))
         case None => None
  {
    assert RuleFor("GST Debit") == Some(Special(InwardDebitTag));
    SpecialLine(Template[i], rows, FinalNetOf(rows).GetOr(Zero), InwardOf(rows), l, InwardDebitTag);
    InwardSlots(rows);
  }

  lemma GstCreditLine(rows: seq<Row>, l: Labels, i: nat)
    requires i < |Template| && Template[i].description == "GST Credit"
    ensures var line := VoucherFor(rows, l)[i];
      && line.debit.None?
      && line.credit == match FirstInwardGst(rows)
         case Some(k) => Some(Fee(rows[k], ServiceFeeCrColumn))
         case None => None
  {
    assert RuleFor("GST Credit") == Some(Special(InwardCreditTag));
    SpecialLine(Template[i], rows, FinalNetOf(rows).GetOr(Zero), InwardOf(rows), l, InwardCreditTag);
    InwardSlots(rows);
  }

  /**
   * The Arbitration Vedict line debits the rounded SETAMTDR sum under the stricter filter, not
   * its generic cycle rule; an empty sum is kept as 0.00.
   */
  lemma ArbitrationLine(rows: seq<Row>, finalNet: Decimal, inward: Inward, l: Labels, i: nat)
    requires i < |Template| && Template[i].description == "Arbitration Vedict"
    ensures var line := VoucherOf(rows, finalNet, inward, l)[i];
      && line.credit.None?
      && line.debit == Some(Round2(SumColumn(rows, ArbitrationVerdict, SetAmtDrColumn)))
  {
    assert RuleFor("Arbitration Vedict").value.special.None?;
  }

  /**
   * An ordinary line carries the rounded sum of its rule's column over the rows in its rule's
   * cycles: lines 2-4 in the credit slot, lines 6, 7 and 9-12 in the debit slot.
   */
  lemma CycleLine(rows: seq<Row>, finalNet: Decimal, inward: Inward, l: Labels, i: nat)
    requires i in CreditLines || i in DebitLines
    ensures var line := VoucherOf(rows, finalNet, inward, l)[i];
      var rule := CycleRule(i);
      var amt := Some(Round2(SumColumn(rows, InCycles(rule.cycles.value), rule.sumCol.value)));
      && (i in CreditLines ==> line.credit == amt && line.debit.None?)
      && (i in DebitLines ==> line.debit == amt && line.credit.None?)
  {
    var t, rule := Template[i], CycleRule(i);
    CycleEntries(i);
    OrdinaryLine(t, rule, rows, finalNet, inward, l);
    var line := LineFor(t, Some(rule), rows, finalNet, inward, l);
    assert VoucherOf(rows, finalNet, inward, l)[i] == line;
    var amt := Round2(SumColumn(rows, InCycles(rule.cycles.value), rule.sumCol.value));
    assert Slot(RuleAmount(Some(rule), rows)) == Some(amt);
    if i in CreditLines {
      assert line.credit == Some(amt) && line.debit.None?;
    } else {
      assert line.debit == Some(amt) && line.credit.None?;
    }
  }

  /** The Good Faith Acceptance Debit rule names no column, so its line always debits 0.00. */
  lemma GoodFaithDebitLine(rows: seq<Row>, finalNet: Decimal, inward: Inward, l: Labels, i: nat)
    requires i < |Template| && Template[i].description == "Good Faith Acceptance Debit"
    ensures var line := VoucherOf(rows, finalNet, inward, l)[i];
      line.debit == Some(Decimal(0, 2)) && line.credit.None?
  {
    var rule := Rule(Some(["good faith acceptance"]), None, Some("goodfaith"), None);
    assert RuleFor("Good Faith Acceptance Debit") == Some(rule);
    OrdinaryLine(Template[i], rule, rows, finalNet, inward, l);
    assert RuleAmount(Some(rule), rows) == Decimal(0, 2);
  }

  /** A cycle line whose cycles select no row still shows an explicit 0.00. */
  lemma EmptyCycleShowsZero(rows: seq<Row>, finalNet: Decimal, inward: Inward, l: Labels, i: nat)
    requires i in CreditLines || i in DebitLines
    requires forall k :: 0 <= k < |rows| ==> !Selects(InCycles(CycleRule(i).cycles.value), rows[k])
    ensures var line := VoucherOf(rows, finalNet, inward, l)[i];
      (if i in CreditLines then line.credit else line.debit) == Some(Decimal(0, 2))
  {
    CycleLine(rows, finalNet, inward, l, i);
    var rule := CycleRule(i);
    SumColumnOfNoneSelected(rows, InCycles(rule.cycles.value), rule.sumCol.value);
    assert Round2(Zero) == Decimal(0, 2);
  }

  /** The Final Net Amt line's narration, with the labels of the settlement date. */
  lemma FinalNarrationLine(rows: seq<Row>, finalNet: Decimal, inward: Inward, l: Labels)
    requires PlainLabels(l)
    ensures VoucherOf(rows, finalNet, inward, l)[0].narration == "NPCIR5" + l.compact + " " + l.short + "_" + l.cycle + " ETCAC"
  {
    LinesFollowTemplate(rows, finalNet, inward, l, 0);
    assert Template[0].template == "NPCIR5{yyyymmdd} {ddmmyy}_{cycle} ETCAC";
    FinalNarration(l);
  }

  /** Every other line's narration: "Etoll acq", the dotted date, the entry's tag and the cycle label. */
  lemma AcqNarrationLine(rows: seq<Row>, finalNet: Decimal, inward: Inward, l: Labels, i: nat, tag: string)
    requires PlainLabels(l) && '{' !in tag
    requires i < |Template| && Template[i].template == "Etoll acq {dd_mm_yy}" + tag + "_{cycle}"
    ensures VoucherOf(rows, finalNet, inward, l)[i].narration == "Etoll acq " + l.dotted + tag + "_" + l.cycle
  {
    LinesFollowTemplate(rows, finalNet, inward, l, i);
    AcqNarration(tag, l);
  }

  // ---------------- what the totals see ----------------

  /** An amount the build can place: rounded to two places, or `BigDecimal.ZERO` (which it leaves out). */
  predicate Placeable(d: Decimal) {
    d == Zero || d.scale == 2
  }

  /** Every amount a line holds has exactly two decimals, given placeable Final Net and INWARD amounts. */
  lemma LineAmountsScaled(t: TemplateRow, rule: Option<Rule>, rows: seq<Row>, finalNet: Decimal, inward: Inward, l: Labels)
    requires Placeable(finalNet)
    requires Placeable(inward.incomeDebit) && Placeable(inward.incomeCredit)
    requires Placeable(inward.gstDebit) && Placeable(inward.gstCredit)
    ensures var line := LineFor(t, rule, rows, finalNet, inward, l);
      && (line.debit.Some? ==> line.debit.value.scale == 2)
      && (line.credit.Some? ==> line.credit.value.scale == 2)
  {
  }

  /**
   * In the voucher built from the rows no line holds both a debit and a credit, and every
   * amount it holds has exactly two decimals.
   */
  lemma VoucherAmountsScaled(rows: seq<Row>, l: Labels)
    ensures var v := VoucherFor(rows, l);
      forall k :: 0 <= k < |v| ==>
        && (v[k].debit.None? || v[k].credit.None?)
        && (v[k].debit.Some? ==> v[k].debit.value.scale == 2)
        && (v[k].credit.Some? ==> v[k].credit.value.scale == 2)
  {
    var finalNet, inward := FinalNetOf(rows).GetOr(Zero), InwardOf(rows);
    FinalNetIsLastValue(rows);
    InwardFoundOrZero(rows);
    var v := VoucherFor(rows, l);
    forall k | 0 <= k < |v|
      ensures v[k].debit.None? || v[k].credit.None?
      ensures v[k].debit.Some? ==> v[k].debit.value.scale == 2
      ensures v[k].credit.Some? ==> v[k].credit.value.scale == 2
    {
      var t := Template[k];
      assert v[k] == LineFor(t, RuleFor(t.description), rows, finalNet, inward, l);
      NeverBothSlots(rows, finalNet, inward, l, k);
      LineAmountsScaled(t, RuleFor(t.description), rows, finalNet, inward, l);
    }
  }
}
