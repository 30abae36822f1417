/**
 * The string operations the engine relies on, as java.lang.String defines them:
 * `trim`, ASCII `toLowerCase`, `equalsIgnoreCase` and `replace(CharSequence, CharSequence)`.
 */
module Text {

  /** `String.trim` strips every character whose code is at most U+0020. */
  predicate IsTrimmable(c: char) {
    c <= ' '
  }

  function TrimStart(s: string): string {
    if s != [] && IsTrimmable(s[0]) then TrimStart(s[1..]) else s
  }

  function TrimEnd(s: string): string {
    if s != [] && IsTrimmable(s[|s| - 1]) then TrimEnd(s[..|s| - 1]) else s
  }

  function Trim(s: string): string {
    TrimEnd(TrimStart(s))
  }

  /** `TrimStart` leaves no trimmable character in front. */
  lemma {:induction false} TrimStartFront(s: string)
    ensures TrimStart(s) == [] || !IsTrimmable(TrimStart(s)[0])
  {
    if s != [] && IsTrimmable(s[0]) {
      TrimStartFront(s[1..]);
    }
  }

  /** `TrimEnd` leaves no trimmable character at the back. */
  lemma {:induction false} TrimEndBack(s: string)
    ensures TrimEnd(s) == [] || !IsTrimmable(TrimEnd(s)[|TrimEnd(s)| - 1])
  {
    if s != [] && IsTrimmable(s[|s| - 1]) {
      TrimEndBack(s[..|s| - 1]);
    }
  }

  /** A trimmed string starts and ends with a character that is not trimmable. */
  lemma TrimEnds(s: string)
    ensures var r := Trim(s); r == [] || (!IsTrimmable(r[0]) && !IsTrimmable(r[|r| - 1]))
  {
    var t := TrimStart(s);
    TrimStartFront(s);
    TrimEndBack(t);
    TrimEndIsPrefix(t);
  }

  /** A string with no trimmable character at either end is its own trim. */
  lemma TrimOfTrimmed(s: string)
    requires s == [] || (!IsTrimmable(s[0]) && !IsTrimmable(s[|s| - 1]))
    ensures Trim(s) == s
  {
  }

  lemma TrimIdempotent(s: string)
    ensures Trim(Trim(s)) == Trim(s)
  {
    TrimEnds(s);
    TrimOfTrimmed(Trim(s));
  }

  /** A cell is blank (trims to "") exactly when all of its characters are trimmable. */
  lemma {:induction false} TrimEmptyIffAllTrimmable(s: string)
    ensures Trim(s) == "" <==> forall i :: 0 <= i < |s| ==> IsTrimmable(s[i])
  {
    TrimStartEmptyIff(s);
    TrimStartIsSuffix(s);
    TrimStartFront(s);
    var t := TrimStart(s);
    if t != [] {
      assert t[0] == s[|s| - |t|];
      TrimEndKeepsLeadingChar(t);
    }
  }

  /** What `TrimEnd` keeps is a prefix of its argument. */
  lemma {:induction false} TrimEndIsPrefix(s: string)
    ensures |TrimEnd(s)| <= |s| && TrimEnd(s) == s[..|TrimEnd(s)|]
  {
    if s != [] && IsTrimmable(s[|s| - 1]) {
      TrimEndIsPrefix(s[..|s| - 1]);
    }
  }

  /** What `TrimStart` keeps is a suffix of its argument. */
  lemma {:induction false} TrimStartIsSuffix(s: string)
    ensures |TrimStart(s)| <= |s| && TrimStart(s) == s[|s| - |TrimStart(s)|..]
  {
    if s != [] && IsTrimmable(s[0]) {
      TrimStartIsSuffix(s[1..]);
    }
  }

  lemma {:induction false} TrimEndKeepsLeadingChar(s: string)
    requires s != [] && !IsTrimmable(s[0])
    ensures TrimEnd(s) != []
  {
    if |s| > 1 && IsTrimmable(s[|s| - 1]) {
      TrimEndKeepsLeadingChar(s[..|s| - 1]);
    }
  }

  lemma {:induction false} TrimStartEmptyIff(s: string)
    ensures TrimStart(s) == "" <==> forall i :: 0 <= i < |s| ==> IsTrimmable(s[i])
  {
    if s != [] && IsTrimmable(s[0]) {
      TrimStartEmptyIff(s[1..]);
      assert forall i :: 1 <= i < |s| ==> s[i] == s[1..][i - 1];
    }
  }

  function LowerChar(c: char): (d: char)
  {
    if 'A' <= c <= 'Z' then (c as int - 'A' as int + 'a' as int) as char else c
  }

  /**
   * `toLowerCase` restricted to ASCII: no upper-case letter is left, each upper-case letter
   * becomes its lower-case partner, and every other character is kept in place.
   */
  function ToLower(s: string): (r: string)
    ensures |r| == |s|
    ensures forall i :: 0 <= i < |r| ==> !('A' <= r[i] <= 'Z')
    ensures forall i :: 0 <= i < |s| && !('A' <= s[i] <= 'Z') ==> r[i] == s[i]
    ensures forall i :: 0 <= i < |s| && 'A' <= s[i] <= 'Z' ==> 'a' <= r[i] <= 'z' && r[i] as int - 'a' as int == s[i] as int - 'A' as int
  {
    seq(|s|, i requires 0 <= i < |s| => LowerChar(s[i]))
  }

  /** `equalsIgnoreCase` for ASCII text. */
  predicate EqualsIgnoreCase(a: string, b: string) {
    ToLower(a) == ToLower(b)
  }

  /** The engine's `safeLower`: trimmed, then lower-cased (callers never pass null). */
  function SafeLower(s: string): (r: string)
    ensures forall i :: 0 <= i < |r| ==> !('A' <= r[i] <= 'Z')
  {
    ToLower(Trim(s))
  }

  /** A lookup key is already in normal form: normalising it again changes nothing. */
  lemma SafeLowerIdempotent(s: string)
    ensures SafeLower(SafeLower(s)) == SafeLower(s)
  {
    var k := SafeLower(s);
    TrimEnds(s);
    assert k == [] || (!IsTrimmable(k[0]) && !IsTrimmable(k[|k| - 1]));
    TrimOfTrimmed(k);
    assert ToLower(k) == k;
  }

  /**
   * `s.replace(target, replacement)`: every occurrence of `target`, scanning left to right and
   * resuming after each replaced occurrence.
   */
  function Replace(s: string, target: string, replacement: string): string
    requires |target| > 0
    decreases |s|
  {
    if |s| < |target| then s
    else if s[..|target|] == target then replacement + Replace(s[|target|..], target, replacement)
    else [s[0]] + Replace(s[1..], target, replacement)
  }

  /** Replacing a character that does not occur leaves the text as it is. */
  lemma {:induction false} ReplaceAbsentChar(s: string, c: char, replacement: string)
    requires c !in s
    ensures Replace(s, [c], replacement) == s
  {
    if |s| >= 1 {
      assert s[..1] == [s[0]];
      ReplaceAbsentChar(s[1..], c, replacement);
      assert [s[0]] + s[1..] == s;
    }
  }

  /** The text with every `c` taken out and every other character kept, in order. */
  function WithoutChar(s: string, c: char): string {
    if s == [] then [] else (if s[0] == c then [] else [s[0]]) + WithoutChar(s[1..], c)
  }

  /** `replace(",", "")` leaves no comma behind and keeps every other character, in order. */
  lemma {:induction false} ReplaceDeletesChar(s: string, c: char)
    ensures Replace(s, [c], "") == WithoutChar(s, c)
    ensures c !in Replace(s, [c], "")
    ensures |Replace(s, [c], "")| == |s| - CountChar(s, c)
  {
    if |s| >= 1 {
      ReplaceDeletesChar(s[1..], c);
      assert s[..1] == [s[0]];
    }
  }

  /**
   * A one-character target never straddles two pieces of text, so replacing it in a
   * concatenation replaces it in each piece.
   */
  lemma {:induction false} ReplaceCharSplits(a: string, b: string, c: char, replacement: string)
    ensures Replace(a + b, [c], replacement) == Replace(a, [c], replacement) + Replace(b, [c], replacement)
    decreases |a|
  {
    if a == [] {
      assert a + b == b;
    } else {
      assert (a + b)[..1] == a[..1] == [a[0]];
      assert (a + b)[1..] == a[1..] + b;
      ReplaceCharSplits(a[1..], b, c, replacement);
    }
  }

  function CountChar(s: string, c: char): (n: nat)
    ensures n <= |s|
  {
    if s == [] then 0 else (if s[0] == c then 1 else 0) + CountChar(s[1..], c)
  }

  /** A prefix free of `{` passes through a replacement of a target that starts with `{`. */
  lemma {:induction false} ReplaceSkipsPlainPrefix(a: string, b: string, target: string, replacement: string)
    requires |target| > 0 && target[0] == '{' && '{' !in a
    ensures Replace(a + b, target, replacement) == a + Replace(b, target, replacement)
  {
    if a == [] {
      assert a + b == b;
    } else if |a + b| < |target| {
      assert Replace(b, target, replacement) == b;
    } else {
      assert (a + b)[..|target|][0] == a[0] != target[0];
      assert (a + b)[1..] == a[1..] + b;
      ReplaceSkipsPlainPrefix(a[1..], b, target, replacement);
      assert [a[0]] + a[1..] == a;
    }
  }

  /** An occurrence at the very start is replaced and the scan resumes right after it. */
  lemma ReplaceAtStart(b: string, target: string, replacement: string)
    requires |target| > 0
    ensures Replace(target + b, target, replacement) == replacement + Replace(b, target, replacement)
  {
    assert (target + b)[..|target|] == target;
    assert (target + b)[|target|..] == b;
  }
}
