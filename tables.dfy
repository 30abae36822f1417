/**
 * The engine's two fixed tables: the voucher template (one entry per voucher line, in output
 * order) and the rule table keyed by line description.
 */
module Tables {
  import opened Wrappers
  import opened Report

  /** One template entry: ledger account, narration pattern and description. */
  datatype TemplateRow = TemplateRow(accountNo: string, template: string, description: string)

  /** A spacer entry has neither account nor description; it yields a blank line. */
  predicate IsSpacer(t: TemplateRow) {
    t.accountNo == "" && t.description == ""
  }

  const Spacer := TemplateRow("", "", "")

  const Acq := "0103SLETCACQ"
  const Income := "0103CNETCACQ"
  const Gst := "0103SLPPCIGT"
  const AcqPattern := "Etoll acq {dd_mm_yy}_{cycle}"

  /** The voucher layout, line by line. */
  const Template: seq<TemplateRow> := [
    TemplateRow("0103SLRGTSRC", "NPCIR5{yyyymmdd} {ddmmyy}_{cycle} ETCAC", "Final Net Amt"),
    Spacer,
    TemplateRow(Acq, AcqPattern, "NETC Settled Transaction"),
    TemplateRow(Acq, "Etoll acq {dd_mm_yy} Dr.Adj_{cycle}", "Debit Adjustment"),
    TemplateRow(Acq, "Etoll acq {dd_mm_yy} GF Accp_{cycle}", "Good Faith Acceptance Credit"),
    Spacer,
    TemplateRow(Acq, "Etoll acq {dd_mm_yy} Cr.Adj_{cycle}", "Credit Adjustment"),
    TemplateRow(Acq, "Etoll acq {dd_mm_yy} Chbk_{cycle}", "Chargeback Acceptance"),
    TemplateRow(Acq, "Etoll acq {dd_mm_yy} GF Accp_{cycle}", "Good Faith Acceptance Debit"),
    TemplateRow(Acq, "Etoll acq {dd_mm_yy} PrArbtAc_{cycle}", "Pre-Arbitration Acceptance"),
    TemplateRow(Acq, "Etoll acq {dd_mm_yy} DrPrAbAc_{cycle}", "Pre-Arbitration Deemed Acceptance"),
    TemplateRow(Acq, "Etoll acq {dd_mm_yy} DrChbAc_{cycle}", "Debit chargeback deemed Acceptance"),
    TemplateRow(Acq, "Etoll acq {dd_mm_yy} ArbtAc_{cycle}", "Arbitration Acceptance"),
    TemplateRow(Acq, "Etoll acq {dd_mm_yy} ArbtVer_{cycle}", "Arbitration Vedict"),
    Spacer,
    TemplateRow(Income, AcqPattern, "Income Debit"),
    TemplateRow(Gst, AcqPattern, "GST Debit"),
    TemplateRow(Income, AcqPattern, "Income Credit"),
    TemplateRow(Gst, AcqPattern, "GST Credit")
  ]

  /**
   * A rule: the normalised cycles it sums over, the column it sums, the slot it fills and a
   * special handling tag; every field may be absent (`null`).
   */
  datatype Rule = Rule(cycles: Option<seq<string>>, sumCol: Option<string>, side: Option<string>, special: Option<string>)

  function Summing(cycles: seq<string>, column: string, side: string): Rule {
    Rule(Some(cycles), Some(column), Some(side), None)
  }

  function Special(tag: string): Rule {
    Rule(None, None, None, Some(tag))
  }

  /** The rule table. */
  const Rules: map<string, Rule> := map[
    "NETC Settled Transaction" := Summing(["netc settled transaction"], SetAmtCrColumn, "credit"),
    "Debit Adjustment" := Summing(["debitadjustment", "debit adjustment"], SetAmtCrColumn, "credit"),
    "Good Faith Acceptance Credit" := Summing(["good faith acceptance"], SetAmtCrColumn, "credit"),
    "Credit Adjustment" := Summing(["credit adjustment"], SetAmtDrColumn, "debit"),
    "Chargeback Acceptance" := Summing(["chargeback acceptance"], SetAmtDrColumn, "debit"),
    "Good Faith Acceptance Debit" := Rule(Some(["good faith acceptance"]), None, Some("goodfaith"), None),
    "Pre-Arbitration Acceptance" := Summing(["pre-arbitration acceptance"], SetAmtDrColumn, "debit"),
    "Pre-Arbitration Deemed Acceptance" := Summing(["pre-arbitration deemed acceptance"], SetAmtDrColumn, "debit"),
    "Debit chargeback deemed Acceptance" := Summing(["debit chargeback deemed acceptance"], SetAmtDrColumn, "debit"),
    "Arbitration Acceptance" := Summing(["arbitration acceptance"], SetAmtDrColumn, "debit"),
    "Arbitration Vedict" := Summing(["arbitration vedict"], SetAmtDrColumn, "debit"),
    "Income Debit" := Special("inward_dr"),
    "GST Debit" := Special("inward_dr"),
    "Income Credit" := Special("inward_cr"),
    "GST Credit" := Special("inward_cr"),
    "Final Net Amt" := Special("final")
  ]

  /** `RULES.get(desc)`. */
  function RuleFor(description: string): (r: Option<Rule>)
    ensures r.Some? <==> description in Rules
  {
    if description in Rules then Some(Rules[description]) else None
  }

  /**
   * The layout: nineteen lines, spacers exactly at positions 1, 5 and 14, and every other entry
   * described by a rule.
   */
  lemma TemplateLayout()
    ensures |Template| == 19
    ensures forall i :: 0 <= i < |Template| ==> (IsSpacer(Template[i]) <==> i in {1, 5, 14})
    ensures forall i :: 0 <= i < |Template| && !IsSpacer(Template[i]) ==> Template[i].description in Rules
  {
  }

  /** The entries an ordinary cycle rule fills: lines 2-4 credit, lines 6, 7 and 9-12 debit. */
  const CreditLines: set<nat> := {2, 3, 4}
  const DebitLines: set<nat> := {6, 7, 9, 10, 11, 12}

  /** The rule of an ordinary entry: it sums a column over cycles and has no special tag. */
  function CycleRule(i: nat): (r: Rule)
    requires i in CreditLines || i in DebitLines
    ensures r.cycles.Some? && r.sumCol.Some? && r.special.None?
    ensures r.side == Some("credit") <==> i in CreditLines
  {
    Rules[Template[i].description]
  }

  /** The ordinary entries are real entries, none of them the Arbitration Vedict line. */
  lemma CycleEntries(i: nat)
    requires i in CreditLines || i in DebitLines
    ensures !IsSpacer(Template[i]) && Template[i].description != "Arbitration Vedict"
    ensures RuleFor(Template[i].description) == Some(CycleRule(i))
  {
  }

  /** Every rule is either a summing rule or a special one, never both. */
  lemma RulesAreSummingOrSpecial()
    ensures forall d :: d in Rules ==> (Rules[d].special.Some? <==> Rules[d].cycles.None?)
    ensures forall d :: d in Rules && Rules[d].special.Some? ==> Rules[d].special.value in {"final", "inward_dr", "inward_cr"}
  {
  }

  /** No two template entries share a description except the spacers. */
  lemma TemplateDescriptionsDistinct()
    ensures forall i, j :: 0 <= i < j < |Template| && !IsSpacer(Template[i]) ==> Template[i].description != Template[j].description
  {
  }
}
