/**
 * `generateVoucher` from the parsed report rows on: row preparation, the settlement date and
 * its labels, the amounts, the voucher, the Upload rows, the tally and the outcome.
 */
module Engine {
  import opened Wrappers
  import opened Numerals
  import opened Decimals
  import opened Dates
  import opened Report
  import opened Aggregate
  import opened Narration
  import opened Voucher
  import opened Tally

  const OutputRoot := "E-tollAcquiringSettlement/Processing"
  const NotTallied := "Debit and credit not tallied"

  /** The result map: status, path, both totals and, on error only, a message. */
  datatype RunResult = RunResult(status: string, path: string, debit: Decimal, credit: Decimal, message: Option<string>)

  /** What a run produces: the two sheets as data, the folder it writes to, and the result. */
  datatype Output = Output(voucher: seq<VoucherRow>, upload: seq<UploadRow>, folder: string, result: RunResult)

  /** `<root>/<year>/<MM>/<dd>`. */
  function FolderUnder(root: string, d: Date): string
    requires Valid(d)
  {
    PathOf(root, NatToString(d.year), TwoDigits(d.month), TwoDigits(d.day))
  }

  /** `String.format("%02d", n)` for `n` below 100. */
  function TwoDigits(n: nat): (s: string)
    requires n < 100
    ensures |s| == 2 && AllDigits(s) && DigitsValue(s) == n
  {
    PadLeftValue(n, 2);
    PadLeft(n, 2)
  }

  /** `root.resolve(a).resolve(b).resolve(c)`. */
  function PathOf(root: string, a: string, b: string, c: string): string {
    root + "/" + a + "/" + b + "/" + c
  }

  /** The folder a run writes to. */
  function Folder(d: Date): string
    requires Valid(d)
  {
    FolderUnder(OutputRoot, d)
  }

  function OkFileName(l: Labels): string {
    "ETOLL_ACQUIRING_VOUCHER_" + l.short + "_N" + NatToString(RunNumber) + ".xlsx"
  }

  function ErrorFileName(l: Labels): string {
    "ERROR_" + OkFileName(l)
  }

  /** The status, file and message the two rounded totals decide. */
  function Outcome(dTotal: Decimal, cTotal: Decimal, folder: string, l: Labels): RunResult {
    var ok := SameValue(dTotal, cTotal);
    RunResult(
      if ok then "ok" else "error",
      folder + "/" + (if ok then OkFileName(l) else ErrorFileName(l)),
      dTotal, cTotal,
      if ok then None else Some(NotTallied))
  }

  /** Both forward fills, in the engine's order. */
  function Filled(rows: seq<Row>): seq<Row> {
    ForwardFilled(ForwardFilled(rows, CycleColumn), TypeColumn)
  }

  /** The rows the amounts are taken from: filled, then given their lookup keys. */
  function Prepared(rows: seq<Row>): seq<Row> {
    WithLookupKeysAll(Filled(rows))
  }

  /** The settlement date: from the filled rows, falling back to today. */
  function SettlementFor(rows: seq<Row>, today: Date): (d: Date)
    requires Valid(today)
    ensures Valid(d)
  {
    SettlementOf(Filled(rows)).GetOr(today)
  }

  /** The whole run, as a function of the rows and of today. */
  function Generate(rows: seq<Row>, today: Date): Output
    requires Valid(today)
  {
    var settlement := SettlementFor(rows, today);
    var l := LabelsOf(settlement);
    var voucher := VoucherFor(Prepared(rows), l);
    var folder := Folder(settlement);
    Output(voucher, UploadOf(voucher), folder, Outcome(Round2(DebitSum(voucher)), Round2(CreditSum(voucher)), folder, l))
  }

  /** `generateVoucher` after the workbook is read and before anything is written. */
  method GenerateVoucher(input: seq<Row>, today: Date) returns (out: Output)
    requires Valid(today)
    ensures out == Generate(input, today)
  {
    var report := new ReportRows(input);
    report.ForwardFill(CycleColumn);
    report.ForwardFill(TypeColumn);
    var found := FindSettlementDate(report.rows);
    var settlement := if found.Some? then found.value else today;
    var l := LabelsOf(settlement);
    report.AddLookupKeys();
    var rows := report.rows;
    var totalFinal := FinalNetTotal(rows);
    var inward := InwardAmounts(rows);
    var voucher := BuildVoucher(rows, totalFinal, inward, l);
    var upload := BuildUpload(voucher);
    var dTotal, cTotal := Totals(voucher);
    var folder := Folder(settlement);
    var ok := SameValue(dTotal, cTotal);
    var okFile, errFile := folder + "/" + OkFileName(l), folder + "/" + ErrorFileName(l);
    var result := RunResult(
      if ok then "ok" else "error", if ok then okFile else errFile, dTotal, cTotal, if ok then None else Some(NotTallied));
    out := Output(voucher, upload, folder, result);
  }

  // ---------------- what a run promises ----------------

  /**
   * The run is "ok" exactly when the rounded totals are numerically equal; then it names the
   * ETOLL file, otherwise the ERROR file and carries the message.
   */
  lemma OkExactlyWhenTallied(rows: seq<Row>, today: Date)
    requires Valid(today)
    ensures var out := Generate(rows, today);
      var r, l := out.result, LabelsOf(SettlementFor(rows, today));
      && (r.status == "ok" <==> SameValue(r.debit, r.credit))
      && (r.status == "ok" || r.status == "error")
      && (r.message.Some? <==> r.status == "error")
      && (r.message.Some? ==> r.message.value == NotTallied)
      && r.path == out.folder + "/" + (if r.status == "ok" then OkFileName(l) else ErrorFileName(l))
  {
  }

  /**
   * Nothing is lost to rounding or to the Upload filter: every voucher amount has two decimals,
   * so each total equals the unrounded sum, and the "D" and "C" amounts of the Upload sheet add
   * up to the reported debit and credit totals.
   */
  lemma UploadAgreesWithTotals(rows: seq<Row>, today: Date)
    requires Valid(today)
    ensures var out := Generate(rows, today);
      && SameValue(out.result.debit, DebitSum(out.voucher))
      && SameValue(out.result.credit, CreditSum(out.voucher))
      && SameValue(UploadSum(Entries(out.voucher), "D"), out.result.debit)
      && SameValue(UploadSum(Entries(out.voucher), "C"), out.result.credit)
  {
    var l := LabelsOf(SettlementFor(rows, today));
    var v := VoucherFor(Prepared(rows), l);
    VoucherAmountsScaled(Prepared(rows), l);
    TotalsAreExact(v);
    UploadMatchesTotals(v);
    var d, c := DebitSum(v), CreditSum(v);
    SameValueSymmetric(Round2(d), d);
    SameValueSymmetric(Round2(c), c);
    SameValueTransitive(UploadSum(Entries(v), "D"), d, Round2(d));
    SameValueTransitive(UploadSum(Entries(v), "C"), c, Round2(c));
  }

  /**
   * The forward fills and the lookup keys do not touch the Settlement Date column, so the date
   * is that of the first row of the report as read whose cell parses, or today.
   */
  lemma SettlementFromReportAsRead(rows: seq<Row>, today: Date)
    requires Valid(today)
    ensures SettlementFor(rows, today) == SettlementOf(rows).GetOr(today)
  {
    var once := ForwardFilled(rows, CycleColumn);
    var twice := ForwardFilled(once, TypeColumn);
    forall i | 0 <= i < |rows|
      ensures Cell(once[i], SettlementDateColumn, "") == Cell(rows[i], SettlementDateColumn, "")
    {
      ForwardFillChangesOnlyBlanks(rows, CycleColumn, i, SettlementDateColumn);
    }
    forall i | 0 <= i < |once|
      ensures Cell(twice[i], SettlementDateColumn, "") == Cell(once[i], SettlementDateColumn, "")
    {
      ForwardFillChangesOnlyBlanks(once, TypeColumn, i, SettlementDateColumn);
    }
    SettlementIgnoresOtherColumns(rows, once);
    SettlementIgnoresOtherColumns(once, twice);
  }

  /**
   * The output folder is partitioned by the settlement date: below the root come the year,
   * then the month and the day in two digits each, and each part reads back as its number.
   */
  lemma FolderOfSettlement(root: string, d: Date)
    requires Valid(d)
    ensures var f := FolderUnder(root, d);
      && f[..|root| + 1] == root + "/"
      && f[|f| - 6] == '/' && f[|f| - 3] == '/'
      && DigitsValue(f[|f| - 5..|f| - 3]) == d.month && DigitsValue(f[|f| - 2..]) == d.day
      && DigitsValue(f[|root| + 1..|f| - 6]) == d.year
  {
    NatToStringValue(d.year);
    PathParts(root, NatToString(d.year), TwoDigits(d.month), TwoDigits(d.day));
  }

  /** The parts of `root/y/m/dd`, with two-digit `m` and `dd`, are found at their places and read back. */
  lemma PathParts(root: string, y: string, m: string, dd: string)
    requires |m| == 2 && |dd| == 2 && AllDigits(y) && AllDigits(m) && AllDigits(dd)
    ensures var f := PathOf(root, y, m, dd);
      && f[..|root| + 1] == root + "/"
      && f[|f| - 6] == '/' && f[|f| - 3] == '/'
      && |f| - 6 >= |root| + 1
      && DigitsValue(f[|f| - 5..|f| - 3]) == DigitsValue(m) && DigitsValue(f[|f| - 2..]) == DigitsValue(dd)
      && DigitsValue(f[|root| + 1..|f| - 6]) == DigitsValue(y)
  {
    var f := PathOf(root, y, m, dd);
    assert f[|f| - 5..|f| - 3] == m && f[|f| - 2..] == dd && f[|root| + 1..|f| - 6] == y;
  }

  /** The file names carry the `ddMMyy` label and the run number; the error file is the ok file prefixed. */
  lemma FileNames(l: Labels)
    ensures OkFileName(l) == "ETOLL_ACQUIRING_VOUCHER_" + l.short + "_N1.xlsx"
    ensures ErrorFileName(l) == "ERROR_" + OkFileName(l) && ErrorFileName(l) != OkFileName(l)
  {
    assert NatToString(1) == "1";
  }

  /** The Upload sheet is its header followed by the entries of the run's voucher. */
  lemma UploadOfRun(rows: seq<Row>, today: Date)
    requires Valid(today)
    ensures var out := Generate(rows, today);
      && out.upload[0] == UploadHeader
      && out.upload[1..] == Entries(out.voucher)
      && |out.upload| <= |out.voucher| + 1
  {
    var out := Generate(rows, today);
    EntriesBounded(out.voucher);
    assert out.upload[1..] == Entries(out.voucher);
  }
}
