/** The syntactic check of a cron expression (CronParseUtil::check). */
module Validator {
  import opened Text

  /** `\*(\/\d+)?`: a star, optionally followed by a slash and a step. */
  predicate StarStep(t: string) {
    t == "*" || (|t| >= 3 && t[0] == '*' && t[1] == '/' && IsDigits(t[2..]))
  }

  /** `[\-\/]\d+(\/\d+)?`: a dash or slash, digits, optionally a slash and digits. */
  predicate Suffix(t: string) {
    && |t| >= 2
    && (t[0] == '-' || t[0] == '/')
    && (|| IsDigits(t[1..])
        || exists k :: 1 < k < |t| - 1 && t[k] == '/' && IsDigits(t[1..k]) && IsDigits(t[k + 1..]))
  }

  /** `\d+([\-\/]\d+(\/\d+)?)?`: one term of a comma list. */
  predicate ListTerm(t: string) {
    || IsDigits(t)
    || exists k :: 0 < k < |t| && IsDigits(t[..k]) && Suffix(t[k..])
  }

  /** `Term(,Term)*`. */
  predicate TermList(t: string)
    decreases |t|
  {
    || ListTerm(t)
    || exists k :: 0 < k < |t| - 1 && t[k] == ',' && TermList(t[..k]) && ListTerm(t[k + 1..])
  }

  /** The language of the pattern at line 44. The top-level alternation binds
      loosest, so the first branch is anchored at the start only and the second
      at the end only: the field matches when some prefix is StarStep or some
      suffix is TermList. Without the D modifier PCRE's `$` also matches just
      before a final line feed, so "5\n" matches the pattern but not this
      predicate. The difference never shows: the fields check tests come from a
      split at `\s` and hold no line feed. */
  ghost predicate PatternMatches(tag: string) {
    || (exists k :: 0 <= k <= |tag| && StarStep(tag[..k]))
    || (exists k :: 0 <= k <= |tag| && TermList(tag[k..]))
  }

  lemma SuffixEndsWithDigit(t: string)
    requires Suffix(t)
    ensures IsDigit(t[|t| - 1])
  {
    if !IsDigits(t[1..]) {
      var k :| 1 < k < |t| - 1 && t[k] == '/' && IsDigits(t[1..k]) && IsDigits(t[k + 1..]);
      assert t[|t| - 1] == t[k + 1..][|t| - k - 2];
    } else {
      assert t[|t| - 1] == t[1..][|t| - 2];
    }
  }

  lemma ListTermEndsWithDigit(t: string)
    requires ListTerm(t)
    ensures |t| > 0 && IsDigit(t[|t| - 1])
  {
    if !IsDigits(t) {
      var k :| 0 < k < |t| && IsDigits(t[..k]) && Suffix(t[k..]);
      SuffixEndsWithDigit(t[k..]);
      assert t[|t| - 1] == t[k..][|t| - k - 1];
    }
  }

  lemma TermListEndsWithDigit(t: string)
    requires TermList(t)
    ensures |t| > 0 && IsDigit(t[|t| - 1])
  {
    if !ListTerm(t) {
      var k :| 0 < k < |t| - 1 && t[k] == ',' && TermList(t[..k]) && ListTerm(t[k + 1..]);
      ListTermEndsWithDigit(t[k + 1..]);
      assert t[|t| - 1] == t[k + 1..][|t| - k - 2];
    } else {
      ListTermEndsWithDigit(t);
    }
  }

  /** What the pattern reduces to: the field starts with a star or ends with a digit. */
  lemma PatternIsStarOrTrailingDigit(tag: string)
    ensures PatternMatches(tag) <==> |tag| > 0 && (tag[0] == '*' || IsDigit(tag[|tag| - 1]))
  {
    if |tag| > 0 && tag[0] == '*' {
      assert StarStep(tag[..1]);
    }
    if |tag| > 0 && IsDigit(tag[|tag| - 1]) {
      var k := |tag| - 1;
      assert IsDigits(tag[k..]);
      assert TermList(tag[k..]);
    }
    if PatternMatches(tag) {
      if k :| 0 <= k <= |tag| && StarStep(tag[..k]) {
        assert tag[..k][0] == tag[0];
      } else {
        var k :| 0 <= k <= |tag| && TermList(tag[k..]);
        TermListEndsWithDigit(tag[k..]);
        assert tag[k..][|tag| - k - 1] == tag[|tag| - 1];
      }
    }
  }

  /** preg_match of the pattern at line 44 against one field. */
  function FieldMatches(tag: string): (b: bool)
    ensures b <==> PatternMatches(tag)
  {
    PatternIsStarOrTrailingDigit(tag);
    |tag| > 0 && (tag[0] == '*' || IsDigit(tag[|tag| - 1]))
  }

  /** The fields check looks at: the trimmed text split on whitespace runs. */
  function Fields(cronTime: string): seq<string> {
    SplitSpaces(Trim(cronTime))
  }

  /** check($cronTime, $checkCount): in strict mode the trimmed text has exactly
      five whitespace-separated fields, and every field matches the pattern. */
  ghost predicate Accepts(cronTime: string, checkCount: bool) {
    var tags := Fields(cronTime);
    && (checkCount ==> |tags| == 5)
    && forall i :: 0 <= i < |tags| ==> PatternMatches(tags[i])
  }

  method Check(cronTime: string, checkCount: bool) returns (ok: bool)
    ensures ok <==> Accepts(cronTime, checkCount)
  {
    var trimmed := Trim(cronTime);
    var splitTags := SplitSpaces(trimmed);
    if checkCount && |splitTags| != 5 {
      return false;
    }
    for i := 0 to |splitTags|
      invariant forall j :: 0 <= j < i ==> PatternMatches(splitTags[j])
    {
      if !FieldMatches(splitTags[i]) {
        assert !PatternMatches(Fields(cronTime)[i]);
        return false;
      }
    }
    return true;
  }

  /** SplitSpaces on n stars separated by single spaces. */
  lemma SplitStars()
    ensures SplitSpaces("*") == ["*"]
    ensures SplitSpaces("* *") == ["*", "*"]
    ensures SplitSpaces("* * *") == ["*", "*", "*"]
    ensures SplitSpaces("* * * *") == ["*", "*", "*", "*"]
    ensures SplitSpaces("* * * * *") == ["*", "*", "*", "*", "*"]
  {
    assert FirstSpace("*", 0) == 1;
    assert SplitSpaces("*") == ["*"];
    assert FirstSpace("* *", 0) == 1 && SkipSpaces("* *", 1) == 2 && "* *"[2..] == "*" && "* *"[..1] == "*";
    assert SplitSpaces("* *") == ["*"] + SplitSpaces("*");
    var s3 := "* * *";
    assert FirstSpace(s3, 0) == 1 && SkipSpaces(s3, 1) == 2 && s3[2..] == "* *" && s3[..1] == "*";
    assert SplitSpaces(s3) == ["*"] + SplitSpaces("* *");
    var s4 := "* * * *";
    assert FirstSpace(s4, 0) == 1 && SkipSpaces(s4, 1) == 2 && s4[2..] == s3 && s4[..1] == "*";
    assert SplitSpaces(s4) == ["*"] + SplitSpaces(s3);
    var s5 := "* * * * *";
    assert FirstSpace(s5, 0) == 1 && SkipSpaces(s5, 1) == 2 && s5[2..] == s4 && s5[..1] == "*";
    assert SplitSpaces(s5) == ["*"] + SplitSpaces(s4);
  }

  /** check("* * * * *") holds. (The text is a parameter so that the verifier
      does not unfold the split of a literal without bound.) */
  lemma AcceptsAllStars(s: string)
    requires s == "* * * * *"
    ensures Accepts(s, true)
  {
    var f := ["*", "*", "*", "*", "*"];
    assert Fields(s) == f by {
      TrimUnchanged(s);
      SplitStars();
    }
    assert PatternMatches("*") by {
      PatternIsStarOrTrailingDigit("*");
    }
    AcceptsByFields(s, f, true);
  }

  lemma AcceptsByFields(cronTime: string, tags: seq<string>, checkCount: bool)
    requires Fields(cronTime) == tags
    requires checkCount ==> |tags| == 5
    requires forall i :: 0 <= i < |tags| ==> PatternMatches(tags[i])
    ensures Accepts(cronTime, checkCount)
  {
  }

  /** check("* * * *") fails in strict mode: four fields. */
  lemma RejectsFourFields()
    ensures !Accepts("* * * *", true)
  {
    TrimUnchanged("* * * *");
    SplitStars();
  }

  /** check("a * * * *") fails: the first field neither starts with a star nor
      ends with a digit. */
  lemma RejectsLetterField()
    ensures !Accepts("a * * * *", true)
  {
    var s := "a * * * *";
    assert Fields(s)[0] == "a" by {
      TrimUnchanged(s);
      assert FirstSpace(s, 0) == 1 && s[..1] == "a";
    }
    assert !PatternMatches("a") by {
      PatternIsStarOrTrailingDigit("a");
    }
  }

  /** A field that neither starts with a star nor ends with a digit fails the
      check, whatever the other fields are. */
  lemma RejectsBadField(cronTime: string, checkCount: bool, i: nat)
    requires i < |Fields(cronTime)|
    requires var f := Fields(cronTime)[i]; |f| > 0 ==> f[0] != '*' && !IsDigit(f[|f| - 1])
    ensures !Accepts(cronTime, checkCount)
  {
    PatternIsStarOrTrailingDigit(Fields(cronTime)[i]);
  }
}
