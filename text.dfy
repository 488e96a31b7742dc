/** The string primitives the evaluator relies on: PHP's trim, explode and
    preg_split on whitespace runs, and decimal digits. Strings are sequences of
    characters read byte-wise (no Unicode classes). */
module Text {

  /** `\d` in a PCRE pattern without the Unicode flag. */
  predicate IsDigit(c: char) {
    '0' <= c <= '9'
  }

  /** A non-empty run of decimal digits (`\d+`). */
  predicate IsDigits(s: string) {
    |s| > 0 && forall i :: 0 <= i < |s| ==> IsDigit(s[i])
  }

  /** `\s` in a PCRE pattern without the Unicode flag: space, tab, line feed,
      vertical tab, form feed, carriage return. */
  predicate IsSpace(c: char) {
    c == ' ' || c == '\t' || c == '\n' || c == '\U{000B}' || c == '\U{000C}' || c == '\r'
  }

  /** The characters PHP's trim removes by default. Unlike `\s` this set holds
      NUL and not form feed. */
  predicate IsTrimChar(c: char) {
    c == ' ' || c == '\t' || c == '\n' || c == '\r' || c == '\0' || c == '\U{000B}'
  }

  predicate NoSpace(s: string) {
    forall k :: 0 <= k < |s| ==> !IsSpace(s[k])
  }

  /** Number of leading characters trim removes. */
  function LeadingTrim(s: string): (n: nat)
    ensures n <= |s|
    ensures forall k :: 0 <= k < n ==> IsTrimChar(s[k])
    ensures n < |s| ==> !IsTrimChar(s[n])
  {
    if |s| == 0 || !IsTrimChar(s[0]) then 0 else 1 + LeadingTrim(s[1..])
  }

  /** Number of trailing characters trim removes. */
  function TrailingTrim(s: string): (n: nat)
    ensures n <= |s|
    ensures forall k :: |s| - n <= k < |s| ==> IsTrimChar(s[k])
    ensures n < |s| ==> !IsTrimChar(s[|s| - 1 - n])
  {
    if |s| == 0 || !IsTrimChar(s[|s| - 1]) then 0 else 1 + TrailingTrim(s[..|s| - 1])
  }

  /** PHP's trim with its default character set. */
  function Trim(s: string): (r: string)
    ensures |r| > 0 ==> !IsTrimChar(r[0]) && !IsTrimChar(r[|r| - 1])
    ensures |r| <= |s|
  {
    var i := LeadingTrim(s);
    var t := s[i..];
    t[..|t| - TrailingTrim(t)]
  }

  /** Trim leaves a text alone that neither starts nor ends with a trim character. */
  lemma TrimUnchanged(s: string)
    requires |s| > 0 && !IsTrimChar(s[0]) && !IsTrimChar(s[|s| - 1])
    ensures Trim(s) == s
  {
    assert LeadingTrim(s) == 0;
    assert s[0..] == s;
    assert TrailingTrim(s) == 0;
  }

  /** Trim removes only trim characters, and only from the two ends: the
      result is an infix of the input with trim characters before and after
      it. With the end conditions of Trim this determines the result. */
  lemma TrimInfix(s: string)
    ensures exists i, j ::
      && 0 <= i <= j <= |s| && Trim(s) == s[i..j]
      && (forall k :: 0 <= k < i ==> IsTrimChar(s[k]))
      && (forall k :: j <= k < |s| ==> IsTrimChar(s[k]))
  {
    var i := LeadingTrim(s);
    var t := s[i..];
    var j := i + |t| - TrailingTrim(t);
    assert Trim(s) == s[i..j];
    assert forall k :: j <= k < |s| ==> s[k] == t[k - i];
  }

  /** Index of the first occurrence of `c`, or |s| when there is none. */
  function IndexOf(s: string, c: char): (i: nat)
    ensures i <= |s|
    ensures i < |s| ==> s[i] == c
    ensures forall k :: 0 <= k < i ==> s[k] != c
    ensures i == |s| <==> c !in s
  {
    if |s| == 0 then 0 else if s[0] == c then 0 else 1 + IndexOf(s[1..], c)
  }

  /** PHP's explode with a one-character delimiter: the pieces between
      consecutive delimiters, including empty ones. */
  function Explode(sep: char, s: string): (parts: seq<string>)
    ensures |parts| >= 1
    ensures forall i :: 0 <= i < |parts| ==> sep !in parts[i]
    ensures sep in s ==> |parts| >= 2 && forall i :: 0 <= i < |parts| ==> |parts[i]| < |s|
    ensures sep !in s ==> parts == [s]
    decreases |s|
  {
    var i := IndexOf(s, sep);
    if i == |s| then [s] else [s[..i]] + Explode(sep, s[i + 1..])
  }

  /** PHP's implode with a one-character glue, the inverse of Explode. */
  function Join(parts: seq<string>, sep: char): string
    requires |parts| >= 1
  {
    if |parts| == 1 then parts[0] else parts[0] + [sep] + Join(parts[1..], sep)
  }

  lemma {:induction false} JoinExplode(sep: char, s: string)
    ensures Join(Explode(sep, s), sep) == s
    decreases |s|
  {
    var i := IndexOf(s, sep);
    if i < |s| {
      JoinExplode(sep, s[i + 1..]);
      assert s == s[..i] + [sep] + s[i + 1..];
    }
  }

  lemma {:induction false} ExplodeJoin(sep: char, parts: seq<string>)
    requires |parts| >= 1
    requires forall i :: 0 <= i < |parts| ==> sep !in parts[i]
    ensures Explode(sep, Join(parts, sep)) == parts
  {
    if |parts| > 1 {
      var s := Join(parts, sep);
      var rest := Join(parts[1..], sep);
      assert s == parts[0] + [sep] + rest;
      assert IndexOf(s, sep) == |parts[0]| by {
        assert s[|parts[0]|] == sep;
        forall k | 0 <= k < |parts[0]| ensures s[k] != sep {
          assert s[k] == parts[0][k];
        }
      }
      assert s[..|parts[0]|] == parts[0];
      assert s[|parts[0]| + 1..] == rest;
      ExplodeJoin(sep, parts[1..]);
    }
  }

  /** Index of the first `\s` character, or |s| when there is none. */
  function FirstSpace(s: string, from: nat): (i: nat)
    requires from <= |s|
    ensures from <= i <= |s|
    ensures i < |s| ==> IsSpace(s[i])
    ensures forall k :: from <= k < i ==> !IsSpace(s[k])
    decreases |s| - from
  {
    if from == |s| || IsSpace(s[from]) then from else FirstSpace(s, from + 1)
  }

  /** End of the run of `\s` characters that starts at `from`. */
  function SkipSpaces(s: string, from: nat): (j: nat)
    requires from <= |s|
    ensures from <= j <= |s|
    ensures j < |s| ==> !IsSpace(s[j])
    ensures forall k :: from <= k < j ==> IsSpace(s[k])
    decreases |s| - from
  {
    if from == |s| || !IsSpace(s[from]) then from else SkipSpaces(s, from + 1)
  }

  /** PHP's preg_split('#\s+#', s): the pieces between maximal runs of `\s`,
      including an empty first or last piece when `s` starts or ends with one. */
  function SplitSpaces(s: string): (fields: seq<string>)
    ensures |fields| >= 1
    ensures forall i :: 0 <= i < |fields| ==> NoSpace(fields[i])
    decreases |s|
  {
    var i := FirstSpace(s, 0);
    if i == |s| then [s] else [s[..i]] + SplitSpaces(s[SkipSpaces(s, i)..])
  }

  /** A text that neither starts nor ends with `\s` splits into non-empty fields. */
  lemma {:induction false} SplitSpacesNonEmpty(s: string)
    requires |s| > 0 && !IsSpace(s[0]) && !IsSpace(s[|s| - 1])
    ensures forall i :: 0 <= i < |SplitSpaces(s)| ==> |SplitSpaces(s)[i]| > 0
    decreases |s|
  {
    var i := FirstSpace(s, 0);
    if i < |s| {
      var j := SkipSpaces(s, i);
      assert j < |s|;
      var rest := s[j..];
      assert rest[0] == s[j] && rest[|rest| - 1] == s[|s| - 1];
      SplitSpacesNonEmpty(rest);
      assert SplitSpaces(s) == [s[..i]] + SplitSpaces(rest);
    }
  }

  /** A whitespace-free piece, a non-empty run of `\s`, then a text that is
      empty or starts with a non-space: the split yields the piece and then
      the split of the rest. */
  lemma SplitStepRun(p: string, w: string, rest: string)
    requires NoSpace(p) && |w| > 0 && forall k :: 0 <= k < |w| ==> IsSpace(w[k])
    requires |rest| > 0 ==> !IsSpace(rest[0])
    ensures SplitSpaces(p + w + rest) == [p] + SplitSpaces(rest)
  {
    var s := p + w + rest;
    var n := |p|;
    var e := n + |w|;
    assert s[..n] == p;
    assert s[n..e] == w;
    assert s[e..] == rest;
    FirstSpaceAt(s, n);
    SkipSpacesTo(s, n, e);
  }

  lemma FirstSpaceAt(s: string, n: nat)
    requires n < |s| && NoSpace(s[..n]) && IsSpace(s[n])
    ensures FirstSpace(s, 0) == n
  {
    assert forall k :: 0 <= k < n ==> s[k] == s[..n][k];
  }

  lemma SkipSpacesTo(s: string, n: nat, e: nat)
    requires n <= e <= |s|
    requires forall k :: 0 <= k < e - n ==> IsSpace(s[n..e][k])
    requires e < |s| ==> !IsSpace(s[e])
    ensures SkipSpaces(s, n) == e
  {
    assert forall k :: n <= k < e ==> s[k] == s[n..e][k - n];
  }

  /** The same with a single space. */
  lemma SplitStep(p: string, rest: string)
    requires NoSpace(p) && |rest| > 0 && !IsSpace(rest[0])
    ensures SplitSpaces(p + [' '] + rest) == [p] + SplitSpaces(rest)
  {
    SplitStepRun(p, [' '], rest);
  }

  /** Pieces separated by the runs of `\s` in ws. */
  function Interleave(ps: seq<string>, ws: seq<string>): string
    requires |ps| >= 1 && |ws| == |ps| - 1
  {
    if |ps| == 1 then ps[0] else ps[0] + ws[0] + Interleave(ps[1..], ws[1..])
  }

  /** Splitting at whitespace recovers non-empty, whitespace-free pieces
      separated by any non-empty runs of `\s`. */
  lemma {:induction false} SplitInterleave(ps: seq<string>, ws: seq<string>)
    requires |ps| >= 1 && |ws| == |ps| - 1
    requires forall i :: 0 <= i < |ps| ==> |ps[i]| > 0 && NoSpace(ps[i])
    requires forall i :: 0 <= i < |ws| ==> |ws[i]| > 0 && forall k :: 0 <= k < |ws[i]| ==> IsSpace(ws[i][k])
    ensures SplitSpaces(Interleave(ps, ws)) == ps
  {
    if |ps| == 1 {
      assert FirstSpace(ps[0], 0) == |ps[0]|;
    } else {
      var rest := Interleave(ps[1..], ws[1..]);
      assert rest[0] == ps[1][0] by {
        if |ps| > 2 {
          assert rest == ps[1] + ws[1] + Interleave(ps[2..], ws[2..]);
        }
      }
      SplitStepRun(ps[0], ws[0], rest);
      SplitInterleave(ps[1..], ws[1..]);
      assert ps == [ps[0]] + ps[1..];
    }
  }

  /** Splitting at whitespace undoes joining non-empty, whitespace-free pieces
      with single spaces: the pieces are the text's maximal `\s`-free runs, in
      order. */
  lemma {:induction false} SplitJoin(ps: seq<string>)
    requires |ps| >= 1
    requires forall i :: 0 <= i < |ps| ==> |ps[i]| > 0 && NoSpace(ps[i])
    ensures SplitSpaces(Join(ps, ' ')) == ps
  {
    if |ps| == 1 {
      assert FirstSpace(ps[0], 0) == |ps[0]|;
    } else {
      var rest := Join(ps[1..], ' ');
      assert rest[0] == ps[1][0];
      SplitStep(ps[0], rest);
      SplitJoin(ps[1..]);
      assert ps == [ps[0]] + ps[1..];
    }
  }

  /** Value of a run of decimal digits. */
  function ParseNat(s: string): (n: nat)
    requires IsDigits(s)
    decreases |s|
  {
    var d := (s[|s| - 1] as int) - ('0' as int);
    if |s| == 1 then d else 10 * ParseNat(s[..|s| - 1]) + d
  }

  /** Decimal digits of a natural number, the inverse of ParseNat. */
  function ShowNat(n: nat): (s: string)
    ensures IsDigits(s)
  {
    var d := [(('0' as int) + n % 10) as char];
    if n < 10 then d else ShowNat(n / 10) + d
  }

  lemma {:induction false} ParseShowNat(n: nat)
    ensures ParseNat(ShowNat(n)) == n
  {
    var s := ShowNat(n);
    if n >= 10 {
      ParseShowNat(n / 10);
      assert s[..|s| - 1] == ShowNat(n / 10);
    }
  }
}
