/**
 * Narrations: the settlement-date labels and the chain of four `String.replace` calls that
 * turns a template pattern into a line's narration.
 */
module Narration {
  import opened Numerals
  import opened Text
  import opened Dates

  /** The run number is fixed at 1. */
  const RunNumber: nat := 1

  /** The four texts substituted into narrations. */
  datatype Labels = Labels(compact: string, short: string, dotted: string, cycle: string)

  /** The cycle label: the run number followed by `C`. */
  function CycleLabel(): (s: string)
    ensures s == "1C"
  {
    NatToString(RunNumber) + "C"
  }

  /** `yyyyMMdd`, `ddMMyy`, `dd.MM.yy` of the settlement date and the cycle label. */
  function LabelsOf(d: Date): Labels
    requires Valid(d)
  {
    Labels(CompactText(d), ShortText(d), DottedText(d), CycleLabel())
  }

  /** The placeholders in the order the chain replaces them. */
  datatype Placeholder = CompactDate | ShortDate | DottedDate | Cycle

  function Token(p: Placeholder): string {
    match p
    case CompactDate => "{yyyymmdd}"
    case ShortDate => "{ddmmyy}"
    case DottedDate => "{dd_mm_yy}"
    case Cycle => "{cycle}"
  }

  /** Position of a placeholder in the replacement chain. */
  function Step(p: Placeholder): nat {
    match p
    case CompactDate => 0
    case ShortDate => 1
    case DottedDate => 2
    case Cycle => 3
  }

  function Value(p: Placeholder, l: Labels): string {
    match p
    case CompactDate => l.compact
    case ShortDate => l.short
    case DottedDate => l.dotted
    case Cycle => l.cycle
  }

  /** The line's narration: every occurrence of each placeholder replaced, in chain order. */
  function Narrate(template: string, l: Labels): string {
    var a := Replace(template, Token(CompactDate), l.compact);
    var b := Replace(a, Token(ShortDate), l.short);
    var c := Replace(b, Token(DottedDate), l.dotted);
    Replace(c, Token(Cycle), l.cycle)
  }

  // ---------------- the reference reading of a pattern ----------------

  /** A pattern read as literal text and placeholders. */
  datatype Piece = Lit(text: string) | Hole(p: Placeholder)

  function PieceText(x: Piece): string {
    match x case Lit(t) => t case Hole(p) => Token(p)
  }

  function PieceFill(x: Piece, l: Labels): string {
    match x case Lit(t) => t case Hole(p) => Value(p, l)
  }

  /** The pattern text the pieces spell. */
  function Spell(ps: seq<Piece>): string {
    if ps == [] then ""
    else PieceText(ps[0]) + Spell(ps[1..])
  }

  /** The intended narration: each placeholder stands for its label. */
  function Fill(ps: seq<Piece>, l: Labels): string {
    if ps == [] then ""
    else PieceFill(ps[0], l) + Fill(ps[1..], l)
  }

  /** No literal of the pattern opens a brace. */
  predicate PlainLiterals(ps: seq<Piece>) {
    forall i :: 0 <= i < |ps| && ps[i].Lit? ==> '{' !in ps[i].text
  }

  /** No label opens a brace, so substituted text is never mistaken for a placeholder. */
  predicate PlainLabels(l: Labels) {
    '{' !in l.compact && '{' !in l.short && '{' !in l.dotted && '{' !in l.cycle
  }

  /** The text after the first `k` links of the chain. */
  function Partial(ps: seq<Piece>, l: Labels, k: nat): string {
    if ps == [] then ""
    else
      (match ps[0] case Lit(t) => t case Hole(p) => if Step(p) < k then Value(p, l) else Token(p))
      + Partial(ps[1..], l, k)
  }

  lemma {:induction false} PartialBounds(ps: seq<Piece>, l: Labels)
    ensures Partial(ps, l, 0) == Spell(ps)
    ensures Partial(ps, l, 4) == Fill(ps, l)
  {
    if ps != [] {
      PartialBounds(ps[1..], l);
    }
  }

  /** `{`, then text free of braces, then `}`: the shape of every placeholder token. */
  predicate Braced(t: string) {
    && |t| >= 2 && t[0] == '{' && t[|t| - 1] == '}'
    && (forall i :: 0 < i < |t| ==> t[i] != '{')
    && (forall i :: 0 <= i < |t| - 1 ==> t[i] != '}')
  }

  lemma TokenBraced(p: Placeholder)
    ensures Braced(Token(p))
  {
  }

  /** Two different braced tokens never overlap at the front: the first is passed over whole. */
  lemma ReplaceSkipsBraced(a: string, b: string, t: string, replacement: string)
    requires Braced(a) && Braced(t) && a != t
    ensures Replace(a + b, t, replacement) == a + Replace(b, t, replacement)
  {
    if |a + b| >= |t| {
      BracedHeadDiffers(a, b, t);
      BracedTailIsPlain(a);
      assert a == [a[0]] + a[1..];
      ReplacePassesFront(a[0], a[1..], b, t, replacement);
    } else {
      assert |b| < |t|;
    }
  }

  /** Text that does not start with `target` and has no `{` after its first character is passed over. */
  lemma ReplacePassesFront(c: char, a: string, b: string, t: string, replacement: string)
    requires |t| > 0 && t[0] == '{' && |[c] + a + b| >= |t|
    requires ([c] + a + b)[..|t|] != t && '{' !in a
    ensures Replace([c] + a + b, t, replacement) == [c] + a + Replace(b, t, replacement)
  {
    var s := [c] + a + b;
    assert Replace(s, t, replacement) == [s[0]] + Replace(s[1..], t, replacement);
    assert s[0] == c && s[1..] == a + b;
    ReplaceSkipsPlainPrefix(a, b, t, replacement);
  }

  /** A different braced token does not start where a braced token starts. */
  lemma BracedHeadDiffers(a: string, b: string, t: string)
    requires Braced(a) && Braced(t) && a != t && |a + b| >= |t|
    ensures (a + b)[..|t|] != t
  {
    var head := (a + b)[..|t|];
    if |t| < |a| {
      assert head[|t| - 1] == a[|t| - 1] != t[|t| - 1];
    } else if |t| == |a| {
      assert head == a;
    } else {
      assert head[|a| - 1] == a[|a| - 1] != t[|a| - 1];
    }
  }

  lemma BracedTailIsPlain(a: string)
    requires Braced(a)
    ensures '{' !in a[1..]
  {
    forall i | 0 <= i < |a[1..]| ensures a[1..][i] != '{' {
      assert a[1..][i] == a[i + 1];
    }
  }

  /** A token other than `target` at the front is passed over whole. */
  lemma ReplaceSkipsOtherToken(q: Placeholder, b: string, p: Placeholder, replacement: string)
    requires q != p
    ensures Replace(Token(q) + b, Token(p), replacement) == Token(q) + Replace(b, Token(p), replacement)
  {
    TokenBraced(q);
    TokenBraced(p);
    ReplaceSkipsBraced(Token(q), b, Token(p), replacement);
  }

  /** The `k`-th link of the chain takes the text from stage `k` to stage `k + 1`. */
  lemma {:induction false} ReplaceAdvances(ps: seq<Piece>, l: Labels, p: Placeholder)
    requires PlainLiterals(ps) && PlainLabels(l)
    ensures Replace(Partial(ps, l, Step(p)), Token(p), Value(p, l)) == Partial(ps, l, Step(p) + 1)
  {
    var k, t, v := Step(p), Token(p), Value(p, l);
    if ps != [] {
      assert PlainLiterals(ps[1..]) by {
        forall i | 0 <= i < |ps[1..]| && ps[1..][i].Lit? ensures '{' !in ps[1..][i].text {
          assert ps[1..][i] == ps[i + 1];
        }
      }
      ReplaceAdvances(ps[1..], l, p);
      var rest := Partial(ps[1..], l, k);
      match ps[0]
      case Lit(s) =>
        ReplaceSkipsPlainPrefix(s, rest, t, v);
      case Hole(q) =>
        if Step(q) < k {
          ReplaceSkipsPlainPrefix(Value(q, l), rest, t, v);
        } else if Step(q) == k {
          ReplaceAtStart(rest, t, v);
        } else {
          ReplaceSkipsOtherToken(q, rest, p, v);
        }
    }
  }

  /**
   * With brace-free literals and labels, the replace chain yields exactly the intended narration:
   * each placeholder becomes its label and nothing else changes.
   */
  lemma NarrateFills(ps: seq<Piece>, l: Labels)
    requires PlainLiterals(ps) && PlainLabels(l)
    ensures Narrate(Spell(ps), l) == Fill(ps, l)
  {
    ReplaceAdvances(ps, l, CompactDate);
    ReplaceAdvances(ps, l, ShortDate);
    ReplaceAdvances(ps, l, DottedDate);
    ReplaceAdvances(ps, l, Cycle);
    NarrateByStages(Partial(ps, l, 0), Partial(ps, l, 1), Partial(ps, l, 2), Partial(ps, l, 3), Partial(ps, l, 4), l);
    PartialBounds(ps, l);
  }

  lemma NarrateByStages(s0: string, s1: string, s2: string, s3: string, s4: string, l: Labels)
    requires Replace(s0, Token(CompactDate), l.compact) == s1
    requires Replace(s1, Token(ShortDate), l.short) == s2
    requires Replace(s2, Token(DottedDate), l.dotted) == s3
    requires Replace(s3, Token(Cycle), l.cycle) == s4
    ensures Narrate(s0, l) == s4
  {
  }

  /** The date labels are digits and dots only. */
  lemma LabelsArePlain(d: Date)
    requires Valid(d)
    ensures PlainLabels(LabelsOf(d))
  {
    var l := LabelsOf(d);
    assert forall i :: 0 <= i < |l.compact| ==> IsDigit(l.compact[i]);
    assert forall i :: 0 <= i < |l.short| ==> IsDigit(l.short[i]);
    var a, b, c := PadLeft(d.day, 2), PadLeft(d.month, 2), PadLeft(YearOfEra(d.year) % 100, 2);
    assert l.dotted == a + "." + b + "." + c;
    assert forall i :: 0 <= i < |l.dotted| ==> l.dotted[i] != '{';
  }

  // ---------------- the template's two shapes ----------------

  /** `NPCIR5{yyyymmdd} {ddmmyy}_{cycle} ETCAC`. */
  const FinalPieces := [Lit("NPCIR5"), Hole(CompactDate), Lit(" "), Hole(ShortDate), Lit("_"), Hole(Cycle), Lit(" ETCAC")]

  /** `Etoll acq {dd_mm_yy}<tag>_{cycle}`. */
  function AcqPieces(tag: string): seq<Piece> {
    [Lit("Etoll acq "), Hole(DottedDate), Lit(tag + "_"), Hole(Cycle)]
  }

  lemma FinalSpelled()
    ensures Spell(FinalPieces) == "NPCIR5{yyyymmdd} {ddmmyy}_{cycle} ETCAC"
  {
  }

  lemma FinalFilled(l: Labels)
    ensures Fill(FinalPieces, l) == "NPCIR5" + l.compact + " " + l.short + "_" + l.cycle + " ETCAC"
  {
    var ps := FinalPieces;
    FillOne(ps[6], l);
    FillCons(ps[5..], l);
    FillCons(ps[4..], l);
    FillCons(ps[3..], l);
    FillCons(ps[2..], l);
    FillCons(ps[1..], l);
    FillCons(ps, l);
  }

  lemma FillCons(ps: seq<Piece>, l: Labels)
    requires ps != []
    ensures Fill(ps, l) == PieceFill(ps[0], l) + Fill(ps[1..], l)
  {
  }

  lemma SpellCons(ps: seq<Piece>)
    requires ps != []
    ensures Spell(ps) == PieceText(ps[0]) + Spell(ps[1..])
  {
  }

  lemma SpellOne(x: Piece)
    ensures Spell([x]) == PieceText(x)
  {
    assert [x][1..] == [];
  }

  lemma FillOne(x: Piece, l: Labels)
    ensures Fill([x], l) == PieceFill(x, l)
  {
    assert [x][1..] == [];
  }

  lemma FinalPlain()
    ensures PlainLiterals(FinalPieces)
  {
  }

  lemma FinalNarration(l: Labels)
    requires PlainLabels(l)
    ensures Narrate("NPCIR5{yyyymmdd} {ddmmyy}_{cycle} ETCAC", l) == "NPCIR5" + l.compact + " " + l.short + "_" + l.cycle + " ETCAC"
  {
    FinalSpelled();
    FinalFilled(l);
    FinalPlain();
    NarrateFills(FinalPieces, l);
  }

  lemma AcqSpelled(tag: string)
    ensures Spell(AcqPieces(tag)) == "Etoll acq {dd_mm_yy}" + tag + "_{cycle}"
  {
    var ps := AcqPieces(tag);
    SpellOne(ps[3]);
    SpellCons(ps[2..]);
    SpellCons(ps[1..]);
    SpellCons(ps);
  }

  lemma AcqFilled(tag: string, l: Labels)
    ensures Fill(AcqPieces(tag), l) == "Etoll acq " + l.dotted + tag + "_" + l.cycle
  {
    var ps := AcqPieces(tag);
    FillOne(ps[3], l);
    FillCons(ps[2..], l);
    FillCons(ps[1..], l);
    FillCons(ps, l);
  }

  lemma AcqNarration(tag: string, l: Labels)
    requires PlainLabels(l) && '{' !in tag
    ensures Narrate("Etoll acq {dd_mm_yy}" + tag + "_{cycle}", l) == "Etoll acq " + l.dotted + tag + "_" + l.cycle
  {
    var ps := AcqPieces(tag);
    AcqSpelled(tag);
    AcqFilled(tag, l);
    assert '{' !in tag + "_";
    assert PlainLiterals(ps);
    NarrateFills(ps, l);
  }

  /** A pattern without placeholders, the spacers' empty one included, is its own narration. */
  lemma NarrateLiteral(s: string, l: Labels)
    requires '{' !in s
    ensures Narrate(s, l) == s
  {
    assert s + "" == s;
    ReplaceSkipsPlainPrefix(s, "", Token(CompactDate), l.compact);
    ReplaceSkipsPlainPrefix(s, "", Token(ShortDate), l.short);
    ReplaceSkipsPlainPrefix(s, "", Token(DottedDate), l.dotted);
    ReplaceSkipsPlainPrefix(s, "", Token(Cycle), l.cycle);
  }
}
