/**
 * What the engine derives from a finished voucher: the Upload sheet rows and the debit and
 * credit totals.
 */
module Tally {
  import opened Wrappers
  import opened Decimals
  import opened Voucher

  /** A cell of the Upload sheet: text, or an amount written as a number. */
  datatype UploadCell = Text(text: string) | Amount(value: Decimal)

  type UploadRow = seq<UploadCell>

  const UploadHeader: UploadRow := [Text("Account No"), Text("C/D"), Text("Amount"), Text("Narration")]

  predicate HasAmount(slot: Option<Decimal>) {
    slot.Some? && NonZero(slot.value)
  }

  /**
   * The Upload row of a voucher line: a non-zero debit gives a "D" row, otherwise a non-zero
   * credit a "C" row; a line with neither gives no row. Zero is tested numerically here, so a
   * 0.00 slot gives no row.
   */
  function EntryFor(line: VoucherRow): (e: Option<UploadRow>)
    ensures e.Some? <==> HasAmount(line.debit) || HasAmount(line.credit)
    ensures e.Some? ==> |e.value| == 4 && e.value[0] == Text(line.accountNo) && e.value[3] == Text(line.narration)
    ensures e.Some? ==> e.value[2].Amount? && NonZero(e.value[2].value)
    ensures HasAmount(line.debit) ==> e == Some([Text(line.accountNo), Text("D"), Amount(line.debit.value), Text(line.narration)])
    ensures !HasAmount(line.debit) && HasAmount(line.credit) ==>
      e == Some([Text(line.accountNo), Text("C"), Amount(line.credit.value), Text(line.narration)])
  {
    if HasAmount(line.debit) then Some([Text(line.accountNo), Text("D"), Amount(line.debit.value), Text(line.narration)])
    else if HasAmount(line.credit) then Some([Text(line.accountNo), Text("C"), Amount(line.credit.value), Text(line.narration)])
    else None
  }

  function EntryRows(line: VoucherRow): seq<UploadRow> {
    match EntryFor(line) case Some(e) => [e] case None => []
  }

  /** The Upload rows of the lines, in voucher order. */
  function Entries(voucher: seq<VoucherRow>): seq<UploadRow> {
    if voucher == [] then []
    else Entries(voucher[..|voucher| - 1]) + EntryRows(voucher[|voucher| - 1])
  }

  /** The Upload sheet: the header, then the entries. */
  function UploadOf(voucher: seq<VoucherRow>): seq<UploadRow> {
    [UploadHeader] + Entries(voucher)
  }

  /** The Upload loop. */
  method BuildUpload(voucher: seq<VoucherRow>) returns (upload: seq<UploadRow>)
    ensures upload == UploadOf(voucher)
  {
    upload := [UploadHeader];
    var i := 0;
    while i < |voucher|
      invariant 0 <= i <= |voucher|
      invariant upload == [UploadHeader] + Entries(voucher[..i])
    {
      assert voucher[..i + 1][..i] == voucher[..i];
      var d, c := voucher[i].debit, voucher[i].credit;
      var line := voucher[i];
      if d.Some? && NonZero(d.value) {
        upload := upload + [[Text(line.accountNo), Text("D"), Amount(d.value), Text(line.narration)]];
      } else if c.Some? && NonZero(c.value) {
        upload := upload + [[Text(line.accountNo), Text("C"), Amount(c.value), Text(line.narration)]];
      }
      i := i + 1;
    }
    assert voucher[..i] == voucher;
  }

  /** Entries keep voucher order: those of two stretches of lines follow one another. */
  lemma {:induction false} EntriesAppend(a: seq<VoucherRow>, b: seq<VoucherRow>)
    ensures Entries(a + b) == Entries(a) + Entries(b)
    decreases |b|
  {
    if b == [] {
      assert a + b == a;
    } else {
      var front, last := b[..|b| - 1], b[|b| - 1];
      EntriesAppend(a, front);
      assert (a + b)[..|a + b| - 1] == a + front;
      assert (a + b)[|a + b| - 1] == last;
      assert Entries(a + b) == Entries(a + front) + EntryRows(last);
      assert Entries(b) == Entries(front) + EntryRows(last);
    }
  }

  /** At most one entry per line, and every entry carries a non-zero amount. */
  lemma {:induction false} EntriesBounded(voucher: seq<VoucherRow>)
    ensures |Entries(voucher)| <= |voucher|
    ensures forall k :: 0 <= k < |Entries(voucher)| ==>
      |Entries(voucher)[k]| == 4 && Entries(voucher)[k][2].Amount? && NonZero(Entries(voucher)[k][2].value)
  {
    if voucher != [] {
      EntriesBounded(voucher[..|voucher| - 1]);
    }
  }

  // ---------------- totals ----------------

  /** `dTotal`: every present debit added, unrounded. */
  function DebitSum(voucher: seq<VoucherRow>): Decimal {
    if voucher == [] then Zero
    else
      var before := DebitSum(voucher[..|voucher| - 1]);
      var line := voucher[|voucher| - 1];
      if line.debit.Some? then Add(before, line.debit.value) else before
  }

  /** `cTotal`: every present credit added, unrounded. */
  function CreditSum(voucher: seq<VoucherRow>): Decimal {
    if voucher == [] then Zero
    else
      var before := CreditSum(voucher[..|voucher| - 1]);
      var line := voucher[|voucher| - 1];
      if line.credit.Some? then Add(before, line.credit.value) else before
  }

  /** The tally loop; each total is rounded once, at the end. */
  method Totals(voucher: seq<VoucherRow>) returns (dTotal: Decimal, cTotal: Decimal)
    ensures dTotal == Round2(DebitSum(voucher)) && cTotal == Round2(CreditSum(voucher))
  {
    dTotal, cTotal := Zero, Zero;
    var i := 0;
    while i < |voucher|
      invariant 0 <= i <= |voucher|
      invariant dTotal == DebitSum(voucher[..i]) && cTotal == CreditSum(voucher[..i])
    {
      assert voucher[..i + 1][..i] == voucher[..i];
      var line := voucher[i];
      if line.debit.Some? {
        dTotal := Add(dTotal, line.debit.value);
      }
      if line.credit.Some? {
        cTotal := Add(cTotal, line.credit.value);
      }
      i := i + 1;
    }
    assert voucher[..i] == voucher;
    dTotal, cTotal := Round2(dTotal), Round2(cTotal);
  }

  /** The sum of the Upload amounts marked `side`. */
  function UploadSum(entries: seq<UploadRow>, side: string): Decimal {
    if entries == [] then Zero
    else
      var before := UploadSum(entries[..|entries| - 1], side);
      var e := entries[|entries| - 1];
      if |e| == 4 && e[1] == Text(side) && e[2].Amount? then Add(before, e[2].value) else before
  }

  /**
   * With no line carrying both a debit and a credit, the "D" rows of the Upload sheet add up
   * to the voucher's debit total and the "C" rows to its credit total: what is left out of the
   * sheet is zero.
   */
  lemma {:induction false} UploadMatchesTotals(voucher: seq<VoucherRow>)
    requires forall k :: 0 <= k < |voucher| ==> voucher[k].debit.None? || voucher[k].credit.None?
    ensures SameValue(UploadSum(Entries(voucher), "D"), DebitSum(voucher))
    ensures SameValue(UploadSum(Entries(voucher), "C"), CreditSum(voucher))
  {
    if voucher != [] {
      var front, line := voucher[..|voucher| - 1], voucher[|voucher| - 1];
      assert forall k :: 0 <= k < |front| ==> front[k] == voucher[k];
      UploadMatchesTotals(front);
      UploadSumStep(Entries(front), line, "D");
      UploadSumStep(Entries(front), line, "C");
      var u, d := UploadSum(Entries(front), "D"), DebitSum(front);
      var uc, c := UploadSum(Entries(front), "C"), CreditSum(front);
      if line.debit.Some? {
        StepValue(u, d, line.debit.value, HasAmount(line.debit));
      }
      if line.credit.Some? {
        StepValue(uc, c, line.credit.value, HasAmount(line.credit));
      }
    }
  }

  /** One more line changes the marked sum by its entry's amount, if it has an entry of that side. */
  lemma UploadSumStep(entries: seq<UploadRow>, line: VoucherRow, side: string)
    requires side == "D" || side == "C"
    requires line.debit.None? || line.credit.None?
    ensures UploadSum(entries + EntryRows(line), side) ==
      if side == "D" && HasAmount(line.debit) then Add(UploadSum(entries, side), line.debit.value)
      else if side == "C" && HasAmount(line.credit) then Add(UploadSum(entries, side), line.credit.value)
      else UploadSum(entries, side)
  {
    var more := EntryRows(line);
    if more == [] {
      assert entries + more == entries;
    } else {
      assert (entries + more)[..|entries + more| - 1] == entries;
      assert (entries + more)[|entries + more| - 1] == more[0];
    }
  }

  /** Adding `x` to both sides keeps them equal in value; adding it on one side only is harmless when it is zero. */
  lemma StepValue(u: Decimal, d: Decimal, x: Decimal, counted: bool)
    requires SameValue(u, d) && (counted <==> NonZero(x))
    ensures SameValue(if counted then Add(u, x) else u, Add(d, x))
  {
    if counted {
      AddRespectsValue(u, d, x, x);
    } else {
      AddZeroValue(d, x);
      SameValueTransitive(u, d, Add(d, x)) by {
        SameValueSymmetric(Add(d, x), d);
      }
    }
  }

  /** When every amount has at most two decimals, the rounding of a total loses nothing. */
  lemma {:induction false} TotalsAreExact(voucher: seq<VoucherRow>)
    requires forall k :: 0 <= k < |voucher| ==> (voucher[k].debit.Some? ==> voucher[k].debit.value.scale <= 2)
    requires forall k :: 0 <= k < |voucher| ==> (voucher[k].credit.Some? ==> voucher[k].credit.value.scale <= 2)
    ensures DebitSum(voucher).scale <= 2 && CreditSum(voucher).scale <= 2
    ensures SameValue(Round2(DebitSum(voucher)), DebitSum(voucher))
    ensures SameValue(Round2(CreditSum(voucher)), CreditSum(voucher))
  {
    if voucher != [] {
      var front := voucher[..|voucher| - 1];
      assert forall k :: 0 <= k < |front| ==> front[k] == voucher[k];
      TotalsAreExact(front);
    }
    Round2Exact(DebitSum(voucher));
    Round2Exact(CreditSum(voucher));
  }
}
