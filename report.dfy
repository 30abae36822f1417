/**
 * The report the engine reads: a list of rows, each a map from column header to cell text,
 * and the three passes that work on it before any amount is derived: forward-filling the
 * Transaction Cycle and Transaction Type columns, adding the lower-cased lookup keys, and
 * finding the settlement date.
 */
module Report {
  import opened Wrappers
  import opened Text
  import opened Dates

  /** One report row: column header to cell text. */
  type Row = map<string, string>

  const SettlementDateColumn := "Settlement Date"
  const CycleColumn := "Transaction Cycle"
  const TypeColumn := "Transaction Type"
  const ChannelColumn := "Channel"
  const SetAmtDrColumn := "SETAMTDR"
  const SetAmtCrColumn := "SETAMTCR"
  const ServiceFeeDrColumn := "Service Fee Amt Dr"
  const ServiceFeeCrColumn := "Service Fee Amt Cr"
  const FinalNetColumn := "Final Net Amt"
  const InwardOutwardColumn := "Inward/Outward"

  /** The keys the engine adds to every row: normalised cycle, type and channel. */
  const CycleKey := "TC"
  const TypeKey := "TT"
  const ChannelKey := "CH"

  /** `r.getOrDefault(column, default)`. */
  function Cell(r: Row, column: string, default: string): string {
    if column in r then r[column] else default
  }

  /** The cell's text trimmed, a missing cell reading as "". */
  function Trimmed(r: Row, column: string): string {
    Trim(Cell(r, column, ""))
  }

  predicate Blank(r: Row, column: string) {
    Trimmed(r, column) == ""
  }

  // ---------------- forward fill ----------------

  /** The trimmed text of the lowest non-blank cell of `column`, if there is one. */
  function LastNonBlank(rows: seq<Row>, column: string): (v: Option<string>)
    ensures v.Some? ==> v.value != ""
  {
    if rows == [] then None
    else if !Blank(rows[|rows| - 1], column) then Some(Trimmed(rows[|rows| - 1], column))
    else LastNonBlank(rows[..|rows| - 1], column)
  }

  /** The value found is already trimmed. */
  lemma {:induction false} LastNonBlankTrimmed(rows: seq<Row>, column: string)
    ensures LastNonBlank(rows, column).Some? ==> Trim(LastNonBlank(rows, column).value) == LastNonBlank(rows, column).value
  {
    if rows != [] {
      if Blank(rows[|rows| - 1], column) {
        LastNonBlankTrimmed(rows[..|rows| - 1], column);
      } else {
        TrimIdempotent(Cell(rows[|rows| - 1], column, ""));
      }
    }
  }

  /**
   * `LastNonBlank` finds the nearest non-blank cell from below: there is none exactly when
   * every cell is blank, and otherwise its value is that of a non-blank row with only blank
   * rows after it.
   */
  lemma {:induction false} LastNonBlankIsNearest(rows: seq<Row>, column: string)
    ensures LastNonBlank(rows, column).None? <==> forall i :: 0 <= i < |rows| ==> Blank(rows[i], column)
    ensures LastNonBlank(rows, column).Some? ==>
      exists i :: 0 <= i < |rows| && !Blank(rows[i], column) && Trimmed(rows[i], column) == LastNonBlank(rows, column).value
        && forall j :: i < j < |rows| ==> Blank(rows[j], column)
  {
    if rows != [] && Blank(rows[|rows| - 1], column) {
      var front := rows[..|rows| - 1];
      LastNonBlankIsNearest(front, column);
      assert forall i :: 0 <= i < |front| ==> front[i] == rows[i];
    }
  }

  /** The value the fill carries past row `r`: its trimmed cell if non-blank, else `last`. */
  function Carry(r: Row, column: string, last: string): string {
    if Blank(r, column) then last else Trimmed(r, column)
  }

  /** Looking for the nearest value from the top row down, starting from `last`. */
  lemma {:induction false} LastNonBlankFromTop(rows: seq<Row>, column: string, last: string)
    requires rows != []
    ensures LastNonBlank(rows, column).GetOr(last) == LastNonBlank(rows[1..], column).GetOr(Carry(rows[0], column, last))
  {
    var n := |rows|;
    if n > 1 && Blank(rows[n - 1], column) {
      LastNonBlankFromTop(rows[..n - 1], column, last);
      assert rows[..n - 1][1..] == rows[1..][..n - 2];
      assert rows[..n - 1][0] == rows[0];
    }
  }

  /** One row of the fill: a blank cell (missing or all white space) gets `last`. */
  function FilledRow(r: Row, column: string, last: string): Row {
    if Blank(r, column) then r[column := last] else r
  }

  /** The fill of `rows` from the top, `last` being the value carried in from above. */
  function FillFrom(rows: seq<Row>, column: string, last: string): (out: seq<Row>)
    ensures |out| == |rows|
    decreases |rows|
  {
    if rows == [] then []
    else [FilledRow(rows[0], column, last)] + FillFrom(rows[1..], column, Carry(rows[0], column, last))
  }

  /** What forward-filling `column` does to the rows, nothing being carried in. */
  function ForwardFilled(rows: seq<Row>, column: string): (out: seq<Row>)
    ensures |out| == |rows|
  {
    FillFrom(rows, column, "")
  }

  /** Row `i` of the fill is that row with its blank cell, if any, set to the nearest value above. */
  lemma {:induction false} FillFromAt(rows: seq<Row>, column: string, last: string, i: nat)
    requires i < |rows|
    ensures FillFrom(rows, column, last)[i] == FilledRow(rows[i], column, LastNonBlank(rows[..i], column).GetOr(last))
    decreases i
  {
    if i > 0 {
      var carried := Carry(rows[0], column, last);
      FillFromAt(rows[1..], column, carried, i - 1);
      LastNonBlankFromTop(rows[..i], column, last);
      assert rows[..i][1..] == rows[1..][..i - 1];
    }
  }

  /** One turn of the fill loop: row `i` is written and the carried value moves on. */
  lemma FillLoopStep(input: seq<Row>, column: string, i: nat, last: string, done: seq<Row>)
    requires i < |input|
    requires done + FillFrom(input[i..], column, last) == ForwardFilled(input, column)
    ensures (done + [FilledRow(input[i], column, last)]) + FillFrom(input[i + 1..], column, Carry(input[i], column, last))
      == ForwardFilled(input, column)
  {
    assert input[i..][0] == input[i] && input[i..][1..] == input[i + 1..];
  }

  lemma ForwardFilledAt(rows: seq<Row>, column: string, i: nat)
    requires i < |rows|
    ensures ForwardFilled(rows, column)[i] == FilledRow(rows[i], column, LastNonBlank(rows[..i], column).GetOr(""))
  {
    FillFromAt(rows, column, "", i);
  }

  /**
   * A filled cell holds the trimmed text of a non-blank cell above it with nothing but blanks
   * in between, or "" when every cell above it is blank.
   */
  lemma FilledFromNearestAbove(rows: seq<Row>, column: string, i: nat)
    requires i < |rows| && Blank(rows[i], column)
    ensures column in ForwardFilled(rows, column)[i]
    ensures var v := ForwardFilled(rows, column)[i][column];
      || (v == "" && forall j :: 0 <= j < i ==> Blank(rows[j], column))
      || (exists j :: 0 <= j < i && !Blank(rows[j], column) && Trimmed(rows[j], column) == v
            && forall k :: j < k < i ==> Blank(rows[k], column))
  {
    ForwardFilledAt(rows, column, i);
    var above := rows[..i];
    LastNonBlankIsNearest(above, column);
    assert forall j :: 0 <= j < i ==> above[j] == rows[j];
  }

  /** Once a column has a non-blank cell, no cell below it is blank after the fill. */
  lemma FilledBelowFirstValue(rows: seq<Row>, column: string, j: nat, i: nat)
    requires j <= i < |rows| && !Blank(rows[j], column)
    ensures !Blank(ForwardFilled(rows, column)[i], column)
  {
    ForwardFilledAt(rows, column, i);
    if Blank(rows[i], column) {
      var above := rows[..i];
      LastNonBlankIsNearest(above, column);
      LastNonBlankTrimmed(above, column);
      assert above[j] == rows[j];
    }
  }

  /** After the fill, the nearest non-blank value above any row is what it was before. */
  lemma {:induction false} FillKeepsLastValue(rows: seq<Row>, column: string, i: nat)
    requires i <= |rows|
    ensures LastNonBlank(ForwardFilled(rows, column)[..i], column).GetOr("") == LastNonBlank(rows[..i], column).GetOr("")
  {
    if i > 0 {
      var out := ForwardFilled(rows, column);
      FillKeepsLastValue(rows, column, i - 1);
      ForwardFilledAt(rows, column, i - 1);
      LastNonBlankTrimmed(rows[..i - 1], column);
      assert out[..i][..i - 1] == out[..i - 1];
      assert rows[..i][..i - 1] == rows[..i - 1];
    }
  }

  /** Forward-filling a column twice is the same as once. */
  lemma ForwardFillIdempotent(rows: seq<Row>, column: string)
    ensures ForwardFilled(ForwardFilled(rows, column), column) == ForwardFilled(rows, column)
  {
    var out := ForwardFilled(rows, column);
    var again := ForwardFilled(out, column);
    forall i | 0 <= i < |rows|
      ensures again[i] == out[i]
    {
      ForwardFilledAt(rows, column, i);
      ForwardFilledAt(out, column, i);
      FillKeepsLastValue(rows, column, i);
      LastNonBlankTrimmed(rows[..i], column);
    }
  }

  /**
   * The fill touches blank cells of its column only: a non-blank row is unchanged, and every
   * other column of every row is as it was.
   */
  lemma ForwardFillChangesOnlyBlanks(rows: seq<Row>, column: string, i: nat, other: string)
    requires i < |rows| && other != column
    ensures var out := ForwardFilled(rows, column);
      && (!Blank(rows[i], column) ==> out[i] == rows[i])
      && (other in out[i] <==> other in rows[i])
      && Cell(out[i], other, "") == Cell(rows[i], other, "")
  {
    ForwardFilledAt(rows, column, i);
  }

  // ---------------- lookup keys ----------------

  /** The three `put`s of the normalisation loop, in their order. */
  function WithLookupKeys(r: Row): (out: Row)
    ensures out.Keys == r.Keys + {CycleKey, TypeKey, ChannelKey}
    ensures forall k :: k in r && k != CycleKey && k != TypeKey && k != ChannelKey ==> out[k] == r[k]
    ensures SafeLower(out[CycleKey]) == out[CycleKey] && SafeLower(out[TypeKey]) == out[TypeKey]
      && SafeLower(out[ChannelKey]) == out[ChannelKey]
  {
    var cycle, kind, channel := Cell(r, CycleColumn, ""), Cell(r, TypeColumn, ""), Cell(r, ChannelColumn, "");
    SafeLowerIdempotent(cycle);
    SafeLowerIdempotent(kind);
    SafeLowerIdempotent(channel);
    r[CycleKey := SafeLower(cycle)][TypeKey := SafeLower(kind)][ChannelKey := SafeLower(channel)]
  }

  /** The keys hold the normalised text of the source columns the engine reads them from. */
  lemma LookupKeysNormalise(r: Row)
    ensures var out := WithLookupKeys(r);
      out[CycleKey] == ToLower(Trimmed(r, CycleColumn))
      && out[TypeKey] == ToLower(Trimmed(r, TypeColumn))
      && out[ChannelKey] == ToLower(Trimmed(r, ChannelColumn))
  {
  }

  /** The normalisation applied to each row, rows kept in place. */
  function WithLookupKeysAll(rows: seq<Row>): (out: seq<Row>)
    ensures |out| == |rows| && forall i :: 0 <= i < |rows| ==> out[i] == WithLookupKeys(rows[i])
  {
    seq(|rows|, i requires 0 <= i < |rows| => WithLookupKeys(rows[i]))
  }

  /** The row list the engine passes round and updates in place. */
  class ReportRows {
    var rows: seq<Row>

    constructor(input: seq<Row>)
      ensures rows == input
    {
      rows := input;
    }

    /** `forwardFill`: fill the blank cells of `column` from above. */
    method ForwardFill(column: string)
      modifies this
      ensures rows == ForwardFilled(old(rows), column)
    {
      ghost var input := rows;
      var last := "";
      var i := 0;
      while i < |rows|
        invariant 0 <= i <= |rows| == |input|
        invariant rows[i..] == input[i..]
        invariant rows[..i] + FillFrom(input[i..], column, last) == ForwardFilled(input, column)
      {
        var r := rows[i];
        assert r == input[i];
        FillLoopStep(input, column, i, last, rows[..i]);
        var v := Trimmed(r, column);
        if v != "" {
          last := v;
        } else {
          rows := rows[i := r[column := last]];
        }
        assert rows[..i + 1] == rows[..i] + [rows[i]];
        i := i + 1;
      }
      assert rows[..i] == rows;
    }

    /** The loop that puts the `TC`, `TT` and `CH` keys into every row. */
    method AddLookupKeys()
      modifies this
      ensures rows == WithLookupKeysAll(old(rows))
    {
      ghost var input := rows;
      var i := 0;
      while i < |rows|
        invariant 0 <= i <= |rows| == |input|
        invariant forall k :: 0 <= k < i ==> rows[k] == WithLookupKeys(input[k])
        invariant forall k :: i <= k < |rows| ==> rows[k] == input[k]
      {
        var r := rows[i];
        var cycle, kind, channel := Cell(r, CycleColumn, ""), Cell(r, TypeColumn, ""), Cell(r, ChannelColumn, "");
        rows := rows[i := r[CycleKey := SafeLower(cycle)][TypeKey := SafeLower(kind)][ChannelKey := SafeLower(channel)]];
        i := i + 1;
      }
    }
  }

  // ---------------- settlement date ----------------

  /** The date a row's Settlement Date cell gives, if it parses. */
  function DateIn(r: Row): Option<Date> {
    ParseSettlement(Trimmed(r, SettlementDateColumn))
  }

  /** The date of the first row whose Settlement Date parses; a row that does not is passed over. */
  function SettlementOf(rows: seq<Row>): (r: Option<Date>)
    ensures r.Some? ==> Valid(r.value)
  {
    if rows == [] then None
    else if DateIn(rows[0]).Some? then DateIn(rows[0])
    else SettlementOf(rows[1..])
  }

  /** `findSettlementDate`: scan from the top and stop at the first date that parses. */
  method FindSettlementDate(rows: seq<Row>) returns (r: Option<Date>)
    ensures r == SettlementOf(rows)
  {
    var i := 0;
    while i < |rows|
      invariant 0 <= i <= |rows|
      invariant SettlementOf(rows) == SettlementOf(rows[i..])
    {
      assert rows[i..][1..] == rows[i + 1..];
      var v := Trim(Cell(rows[i], SettlementDateColumn, ""));
      if v == "" {
        i := i + 1;
        continue;
      }
      var parsed := ParseSettlement(v);
      if parsed.Some? {
        return parsed;
      }
      i := i + 1;
    }
    return None;
  }

  /**
   * The settlement date is that of the first row whose cell parses: every row above it fails
   * to parse, and there is none exactly when no row parses.
   */
  lemma {:induction false} SettlementIsFirstParsed(rows: seq<Row>)
    ensures SettlementOf(rows).None? <==> forall i :: 0 <= i < |rows| ==> DateIn(rows[i]).None?
    ensures SettlementOf(rows).Some? ==>
      exists i :: 0 <= i < |rows| && DateIn(rows[i]) == SettlementOf(rows)
        && forall j :: 0 <= j < i ==> DateIn(rows[j]).None?
  {
    if rows != [] && DateIn(rows[0]).None? {
      var rest := rows[1..];
      SettlementIsFirstParsed(rest);
      assert forall i :: 0 <= i < |rest| ==> DateIn(rest[i]) == DateIn(rows[i + 1]);
      if SettlementOf(rest).Some? {
        var i :| 0 <= i < |rest| && DateIn(rest[i]) == SettlementOf(rest)
          && forall j :: 0 <= j < i ==> DateIn(rest[j]).None?;
        assert DateIn(rows[i + 1]) == SettlementOf(rows);
      } else {
        assert forall i :: 1 <= i < |rows| ==> DateIn(rows[i]) == DateIn(rest[i - 1]);
      }
    }
  }

  /** Forward-filling another column and adding the lookup keys leave the settlement date alone. */
  lemma {:induction false} SettlementIgnoresOtherColumns(rows: seq<Row>, filled: seq<Row>)
    requires |filled| == |rows|
    requires forall i :: 0 <= i < |rows| ==> Cell(filled[i], SettlementDateColumn, "") == Cell(rows[i], SettlementDateColumn, "")
    ensures SettlementOf(filled) == SettlementOf(rows)
  {
    if rows != [] {
      assert DateIn(filled[0]) == DateIn(rows[0]);
      SettlementIgnoresOtherColumns(rows[1..], filled[1..]);
    }
  }
}
