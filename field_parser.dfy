/** Expansion of one cron field into its values (CronParseUtil::parseTag and
    checkExp). */
module FieldParser {
  import opened Text
  import opened Results

  // ---------------------------------------------------------------------------
  // Semantics of a field

  /** One term of a field, as the branches of parseTag tell them apart. */
  datatype Term =
    | Wildcard                            // `*`
    | Every(step: nat)                    // `x/n`: min, min+n, ... up to max; x is ignored
    | Multiples(lo: nat, hi: nat, n: nat) // `a-b/n`: the multiples of n between a and b
    | Span(lo: nat, hi: nat)              // `a-b`
    | Literal(v: nat)                     // `a`

  /** Whether v is one of the values a term stands for, before any bounds check. */
  predicate Denotes(t: Term, v: int, min: int, max: int) {
    match t
    case Wildcard => min <= v <= max
    case Every(n) => min <= v <= max && n > 0 && (v - min) % n == 0
    case Multiples(a, b, n) => a <= v <= b && n > 0 && v % n == 0
    case Span(a, b) => a <= v <= b
    case Literal(x) => v == x
  }

  /** A range whose start exceeds its end, which parseTag refuses. */
  predicate Inverted(t: Term) {
    (t.Multiples? || t.Span?) && t.lo > t.hi
  }

  /** Whether v is a value of some term of the field. */
  predicate InField(ts: seq<Term>, v: int, min: int, max: int) {
    exists i :: 0 <= i < |ts| && Denotes(ts[i], v, min, max)
  }

  predicate AnyInverted(ts: seq<Term>) {
    exists i :: 0 <= i < |ts| && Inverted(ts[i])
  }

  ghost predicate InBounds(ts: seq<Term>, min: int, max: int) {
    forall v :: InField(ts, v, min, max) ==> min <= v <= max
  }

  predicate StrictlySorted(s: seq<int>) {
    forall i, j :: 0 <= i < j < |s| ==> s[i] < s[j]
  }

  /** The values of the field between lo and hi, in ascending order. */
  function Members(lo: int, hi: int, ts: seq<Term>, min: int, max: int): seq<int>
    decreases hi - lo
  {
    if lo > hi then []
    else (if InField(ts, lo, min, max) then [lo] else []) + Members(lo + 1, hi, ts, min, max)
  }

  /** What parseTag returns for a field: a domain error when a range is
      inverted or a value lies outside [min, max], otherwise the field's values
      sorted ascending without duplicates. */
  ghost function Expansion(ts: seq<Term>, min: int, max: int): Result<seq<int>> {
    if AnyInverted(ts) || !InBounds(ts, min, max) then Err(DomainError)
    else Ok(Members(min, max, ts, min, max))
  }

  // ---------------------------------------------------------------------------
  // The sequences PHP's range builds

  /** range($lo, $hi) for lo <= hi. */
  function IntRange(lo: int, hi: int): (r: seq<int>)
    requires lo <= hi
    ensures |r| == hi - lo + 1
    ensures forall i :: 0 <= i < |r| ==> r[i] == lo + i
  {
    seq(hi - lo + 1, i => lo + i)
  }

  /** range($lo, $hi, $n): lo, lo + n, lo + 2n, ... not beyond hi. */
  function StepRange(lo: int, hi: int, n: nat): seq<int>
    requires n >= 1
    decreases hi - lo
  {
    if lo > hi then [] else [lo] + StepRange(lo + n, hi, n)
  }

  /** The list the loop of the `a-b/n` branch builds: the k in [a, b], in order,
      with k % n == 0. */
  function MultiplesList(a: int, b: int, n: nat): seq<int>
    requires n >= 1
    decreases b - a
  {
    if b < a then [] else MultiplesList(a, b - 1, n) + (if b % n == 0 then [b] else [])
  }

  // ---------------------------------------------------------------------------
  // Lemmas on the semantics

  lemma PrependSorted(x: int, s: seq<int>)
    requires StrictlySorted(s)
    requires forall v :: v in s ==> x < v
    ensures StrictlySorted([x] + s)
  {
    var r := [x] + s;
    forall i, j | 0 <= i < j < |r| ensures r[i] < r[j] {
      assert r[j] == s[j - 1];
      if i > 0 {
        assert r[i] == s[i - 1];
      } else {
        assert s[j - 1] in s;
      }
    }
  }

  lemma AppendSorted(s: seq<int>, x: int)
    requires StrictlySorted(s)
    requires forall v :: v in s ==> v < x
    ensures StrictlySorted(s + [x])
  {
    var r := s + [x];
    forall i, j | 0 <= i < j < |r| ensures r[i] < r[j] {
      assert r[i] == s[i];
      if j < |s| {
        assert r[j] == s[j];
      } else {
        assert s[i] in s;
      }
    }
  }

  lemma SingletonField(t: Term, min: int, max: int)
    ensures AnyInverted([t]) <==> Inverted(t)
    ensures forall v :: InField([t], v, min, max) <==> Denotes(t, v, min, max)
  {
    assert [t][0] == t;
  }

  /** The expansion of a one-term field. */
  lemma SingletonExpansion(t: Term, min: int, max: int)
    ensures Expansion([t], min, max).Err? <==>
      Inverted(t) || exists v :: Denotes(t, v, min, max) && !(min <= v <= max)
    ensures Expansion([t], min, max).Ok? ==>
      forall v :: v in Expansion([t], min, max).value <==> Denotes(t, v, min, max)
  {
    SingletonField(t, min, max);
    ExpansionSortedInBounds([t], min, max);
  }

  /** Members lists exactly the field's values in [lo, hi], ascending. */
  lemma {:induction false} MembersSpec(lo: int, hi: int, ts: seq<Term>, min: int, max: int)
    ensures StrictlySorted(Members(lo, hi, ts, min, max))
    ensures forall v :: v in Members(lo, hi, ts, min, max) <==> lo <= v <= hi && InField(ts, v, min, max)
    decreases hi - lo
  {
    if lo <= hi {
      MembersSpec(lo + 1, hi, ts, min, max);
      if InField(ts, lo, min, max) {
        PrependSorted(lo, Members(lo + 1, hi, ts, min, max));
      }
    }
  }

  lemma SortedHeadIsLeast(s: seq<int>, v: int)
    requires StrictlySorted(s) && v in s
    ensures s[0] <= v
  {
    var j :| 0 <= j < |s| && s[j] == v;
    assert j == 0 || s[0] < s[j];
  }

  /** Two ascending duplicate-free sequences with the same elements are equal. */
  lemma {:induction false} SortedUnique(a: seq<int>, b: seq<int>)
    requires StrictlySorted(a) && StrictlySorted(b)
    requires forall v :: v in a <==> v in b
    ensures a == b
    decreases |a|
  {
    if |a| > 0 {
      assert a[0] in a;
    }
    if |b| > 0 {
      assert b[0] in b;
    }
    if |a| > 0 && |b| > 0 {
      SortedHeadIsLeast(a, b[0]);
      SortedHeadIsLeast(b, a[0]);
      forall v ensures v in a[1..] <==> v in b[1..] {
        if v in a[1..] {
          var i :| 0 <= i < |a| - 1 && a[1..][i] == v;
          assert a[0] < a[i + 1] && v in a;
          var j :| 0 <= j < |b| && b[j] == v;
          assert j > 0 && b[1..][j - 1] == v;
        }
        if v in b[1..] {
          var i :| 0 <= i < |b| - 1 && b[1..][i] == v;
          assert b[0] < b[i + 1] && v in b;
          var j :| 0 <= j < |a| && a[j] == v;
          assert j > 0 && a[1..][j - 1] == v;
        }
      }
      SortedUnique(a[1..], b[1..]);
    }
  }

  /** A successful expansion is ascending, duplicate-free, holds exactly the
      field's values, and every element lies in [min, max]; it fails exactly
      when a range is inverted or a value is out of bounds. */
  lemma ExpansionSortedInBounds(ts: seq<Term>, min: int, max: int)
    ensures Expansion(ts, min, max).Err? <==>
      AnyInverted(ts) || exists v :: InField(ts, v, min, max) && !(min <= v <= max)
    ensures Expansion(ts, min, max).Ok? ==>
      var r := Expansion(ts, min, max).value;
      && StrictlySorted(r)
      && (forall v :: v in r <==> InField(ts, v, min, max))
      && (forall i :: 0 <= i < |r| ==> min <= r[i] <= max)
  {
    MembersSpec(min, max, ts, min, max);
    var r := Members(min, max, ts, min, max);
    forall i | 0 <= i < |r| ensures min <= r[i] <= max {
      assert r[i] in r;
    }
  }

  /** `*` yields exactly min, min + 1, ..., max. */
  lemma ExpandWildcard(min: int, max: int)
    requires min <= max
    ensures Expansion([Wildcard], min, max) == Ok(IntRange(min, max))
  {
    SingletonField(Wildcard, min, max);
    MembersSpec(min, max, [Wildcard], min, max);
    var r := IntRange(min, max);
    assert StrictlySorted(r);
    forall v ensures v in r <==> min <= v <= max {
      if min <= v <= max {
        assert r[v - min] == v;
      }
    }
    SortedUnique(Members(min, max, [Wildcard], min, max), r);
  }

  lemma MulAtLeast(k: int, n: int)
    requires n > 0
    ensures k >= 1 ==> k * n >= n
  {
  }

  /** Division with remainder is unique. */
  lemma DivisionUnique(a: int, n: int, q: int, r: int)
    requires n > 0 && 0 <= r < n && a == q * n + r
    ensures a % n == r
  {
    var q', r' := a / n, a % n;
    assert a == q' * n + r';
    assert (q - q') * n == r' - r;
    assert (q' - q) * n == r - r';
    MulAtLeast(q - q', n);
    MulAtLeast(q' - q, n);
  }

  lemma ModShift(x: int, n: int)
    requires n > 0
    ensures (x + n) % n == x % n
  {
    var q, r := x / n, x % n;
    assert x == q * n + r;
    assert x + n == (q + 1) * n + r;
    DivisionUnique(x + n, n, q + 1, r);
  }

  lemma StepMember(lo: int, hi: int, n: nat, v: int)
    requires n >= 1 && lo <= hi
    requires v in StepRange(lo + n, hi, n) <==> lo + n <= v <= hi && (v - lo - n) % n == 0
    ensures v in StepRange(lo, hi, n) <==> lo <= v <= hi && (v - lo) % n == 0
  {
    assert StepRange(lo, hi, n) == [lo] + StepRange(lo + n, hi, n);
    if v >= lo + n {
      ModShift(v - lo - n, n);
      assert v - lo - n + n == v - lo;
    } else if lo < v {
      DivisionUnique(v - lo, n, 0, v - lo);
    }
  }

  lemma {:induction false} StepRangeSpec(lo: int, hi: int, n: nat)
    requires n >= 1
    ensures StrictlySorted(StepRange(lo, hi, n))
    ensures forall v :: v in StepRange(lo, hi, n) <==> lo <= v <= hi && (v - lo) % n == 0
    decreases hi - lo
  {
    if lo <= hi {
      StepRangeSpec(lo + n, hi, n);
      PrependSorted(lo, StepRange(lo + n, hi, n));
      forall v ensures v in StepRange(lo, hi, n) <==> lo <= v <= hi && (v - lo) % n == 0 {
        StepMember(lo, hi, n, v);
      }
    }
  }

  /** `x/n` yields min, min + n, ..., up to max, whatever x is. */
  lemma ExpandEvery(n: nat, min: int, max: int)
    requires 1 <= n
    ensures Expansion([Every(n)], min, max) == Ok(StepRange(min, max, n))
  {
    SingletonField(Every(n), min, max);
    MembersSpec(min, max, [Every(n)], min, max);
    StepRangeSpec(min, max, n);
    SortedUnique(Members(min, max, [Every(n)], min, max), StepRange(min, max, n));
  }

  lemma {:induction false} MultiplesListSpec(a: int, b: int, n: nat)
    requires n >= 1
    ensures StrictlySorted(MultiplesList(a, b, n))
    ensures forall v :: v in MultiplesList(a, b, n) <==> a <= v <= b && v % n == 0
    decreases b - a
  {
    if a <= b {
      MultiplesListSpec(a, b - 1, n);
      if b % n == 0 {
        AppendSorted(MultiplesList(a, b - 1, n), b);
      }
    }
  }

  predicate AllWithin(s: seq<int>, min: int, max: int) {
    forall i :: 0 <= i < |s| ==> min <= s[i] <= max
  }

  /** `a-b/n` fails when a > b; otherwise it yields the multiples of n in [a, b]
      (not every n-th value from a), possibly none, and fails when one of them
      lies outside [min, max]. */
  lemma ExpandMultiples(a: nat, b: nat, n: nat, min: int, max: int)
    requires 1 <= n
    ensures a > b ==> Expansion([Multiples(a, b, n)], min, max) == Err(DomainError)
    ensures a <= b ==>
      Expansion([Multiples(a, b, n)], min, max) ==
        if AllWithin(MultiplesList(a, b, n), min, max) then Ok(MultiplesList(a, b, n)) else Err(DomainError)
  {
    var t := Multiples(a, b, n);
    var m := MultiplesList(a, b, n);
    SingletonExpansion(t, min, max);
    MultiplesListSpec(a, b, n);
    if a <= b {
      if AllWithin(m, min, max) {
        forall v | Denotes(t, v, min, max) ensures min <= v <= max {
          assert v in m;
        }
        ExpansionSortedInBounds([t], min, max);
        SortedUnique(Expansion([t], min, max).value, m);
      } else {
        var i :| 0 <= i < |m| && !(min <= m[i] <= max);
        assert m[i] in m;
        assert Denotes(t, m[i], min, max);
      }
    }
  }

  /** `1-5/2` yields 2 and 4 in the minute field. */
  lemma ExpandOneToFiveByTwo()
    ensures Expansion([Multiples(1, 5, 2)], 0, 59) == Ok([2, 4])
  {
    ExpandMultiples(1, 5, 2, 0, 59);
    assert MultiplesList(1, 1, 2) == [];
    assert MultiplesList(1, 2, 2) == [2];
    assert MultiplesList(1, 3, 2) == [2];
    assert MultiplesList(1, 4, 2) == [2, 4];
    assert MultiplesList(1, 5, 2) == [2, 4];
  }

  /** `1-1/2` yields no value and no error. */
  lemma ExpandEmptyMultiples()
    ensures Expansion([Multiples(1, 1, 2)], 1, 31) == Ok([])
  {
    ExpandMultiples(1, 1, 2, 1, 31);
    assert MultiplesList(1, 1, 2) == [];
  }

  /** `a-b` fails when a > b or when the range leaves [min, max]; otherwise it
      yields a, a + 1, ..., b. */
  lemma ExpandSpan(a: nat, b: nat, min: int, max: int)
    ensures Expansion([Span(a, b)], min, max) ==
      if a > b || a < min || b > max then Err(DomainError) else Ok(IntRange(a, b))
  {
    var t := Span(a, b);
    SingletonField(t, min, max);
    if a <= b {
      if a < min {
        assert InField([t], a, min, max);
      } else if b > max {
        assert InField([t], b, min, max);
      } else {
        MembersSpec(min, max, [t], min, max);
        var r := IntRange(a, b);
        forall v ensures v in r <==> a <= v <= b {
          if a <= v <= b {
            assert r[v - a] == v;
          }
        }
        SortedUnique(Members(min, max, [t], min, max), r);
      }
    }
  }

  /** A bare literal yields itself when it is in bounds and fails otherwise. */
  lemma ExpandLiteral(v: nat, min: int, max: int)
    ensures Expansion([Literal(v)], min, max) ==
      if min <= v <= max then Ok([v]) else Err(DomainError)
  {
    SingletonField(Literal(v), min, max);
    if min <= v <= max {
      MembersSpec(min, max, [Literal(v)], min, max);
      SortedUnique(Members(min, max, [Literal(v)], min, max), [v]);
    } else {
      assert InField([Literal(v)], v, min, max);
    }
  }

  /** A comma list fails exactly when one of its terms fails on its own, and
      otherwise yields the ascending union of the terms' expansions. */
  lemma ExpandListIsUnion(ts: seq<Term>, min: int, max: int)
    ensures Expansion(ts, min, max).Err? <==> exists i :: 0 <= i < |ts| && Expansion([ts[i]], min, max).Err?
    ensures Expansion(ts, min, max).Ok? ==> forall v ::
      v in Expansion(ts, min, max).value <==>
      exists i :: 0 <= i < |ts| && v in Expansion([ts[i]], min, max).value
  {
    ExpansionSortedInBounds(ts, min, max);
    forall i | 0 <= i < |ts|
      ensures Expansion([ts[i]], min, max).Err? <==>
        Inverted(ts[i]) || exists v :: Denotes(ts[i], v, min, max) && !(min <= v <= max)
      ensures Expansion([ts[i]], min, max).Ok? ==>
        forall v :: v in Expansion([ts[i]], min, max).value <==> Denotes(ts[i], v, min, max)
    {
      SingletonExpansion(ts[i], min, max);
    }
    if Expansion(ts, min, max).Err? {
      if AnyInverted(ts) {
        var i :| 0 <= i < |ts| && Inverted(ts[i]);
        assert Expansion([ts[i]], min, max).Err?;
      } else {
        var v :| InField(ts, v, min, max) && !(min <= v <= max);
        var i :| 0 <= i < |ts| && Denotes(ts[i], v, min, max);
        assert Expansion([ts[i]], min, max).Err?;
      }
    } else {
      forall i | 0 <= i < |ts| ensures Expansion([ts[i]], min, max).Ok? {
        assert !Inverted(ts[i]);
        forall v | Denotes(ts[i], v, min, max) ensures min <= v <= max {
          assert InField(ts, v, min, max);
        }
      }
    }
  }

  /** The order and repetition of a list's terms do not matter. */
  lemma ExpansionOrderIndependent(ts: seq<Term>, us: seq<Term>, min: int, max: int)
    requires forall t :: t in ts <==> t in us
    ensures Expansion(ts, min, max) == Expansion(us, min, max)
  {
    forall v ensures InField(ts, v, min, max) <==> InField(us, v, min, max) {
      if InField(ts, v, min, max) {
        var i :| 0 <= i < |ts| && Denotes(ts[i], v, min, max);
        assert ts[i] in us;
      }
      if InField(us, v, min, max) {
        var i :| 0 <= i < |us| && Denotes(us[i], v, min, max);
        assert us[i] in ts;
      }
    }
    MembersSpec(min, max, ts, min, max);
    MembersSpec(min, max, us, min, max);
    SortedUnique(Members(min, max, ts, min, max), Members(min, max, us, min, max));
    if AnyInverted(ts) {
      var i :| 0 <= i < |ts| && Inverted(ts[i]);
      assert ts[i] in us;
    }
    if AnyInverted(us) {
      var i :| 0 <= i < |us| && Inverted(us[i]);
      assert us[i] in ts;
    }
  }

  // ---------------------------------------------------------------------------
  // The text of a field

  /** checkExp: the text holds a comma, a dash or a slash. */
  predicate CheckExp(t: string) {
    ',' in t || '-' in t || '/' in t
  }

  /** The terms the branches of parseTag are meant for: `a`, `a-b`, `a-b/n`
      with n >= 1, and `x/n` (x a number or `*`) with 1 <= n <= max - min. */
  predicate WellFormedTerm(t: string, min: int, max: int) {
    && ',' !in t
    && if '/' in t && '-' in t then
         var parts := Explode('/', t);
         && |parts| == 2 && IsDigits(parts[1]) && ParseNat(parts[1]) >= 1
         && (var bounds := Explode('-', parts[0]);
             |bounds| == 2 && IsDigits(bounds[0]) && IsDigits(bounds[1]))
       else if '/' in t then
         var parts := Explode('/', t);
         && |parts| == 2 && (parts[0] == "*" || IsDigits(parts[0]))
         && IsDigits(parts[1]) && 1 <= ParseNat(parts[1]) <= max - min
       else if '-' in t then
         var bounds := Explode('-', t);
         |bounds| == 2 && IsDigits(bounds[0]) && IsDigits(bounds[1])
       else
         IsDigits(t)
  }

  /** A field in the intended grammar: `*`, one term, or a comma list of terms. */
  predicate WellFormedField(tag: string, min: int, max: int) {
    || tag == "*"
    || (',' in tag && forall p :: p in Explode(',', tag) ==> WellFormedTerm(p, min, max))
    || (',' !in tag && WellFormedTerm(tag, min, max))
  }

  /** The term a text stands for, by the branch parseTag takes on it. */
  function LexTerm(t: string, min: int, max: int): Term
    requires WellFormedTerm(t, min, max)
  {
    if '/' in t && '-' in t then
      var parts := Explode('/', t);
      var bounds := Explode('-', parts[0]);
      Multiples(ParseNat(bounds[0]), ParseNat(bounds[1]), ParseNat(parts[1]))
    else if '/' in t then
      Every(ParseNat(Explode('/', t)[1]))
    else if '-' in t then
      var bounds := Explode('-', t);
      Span(ParseNat(bounds[0]), ParseNat(bounds[1]))
    else
      Literal(ParseNat(t))
  }

  /** checkExp (lines 226-229) tells the expression forms from a literal: on
      a well-formed comma piece it is false exactly when the piece is a run of
      digits, which parseTag reads as a literal. */
  lemma CheckExpSeparatesLiterals(t: string, min: int, max: int)
    requires WellFormedTerm(t, min, max)
    ensures !CheckExp(t) <==> IsDigits(t)
    ensures !CheckExp(t) <==> LexTerm(t, min, max).Literal?
  {
  }

  function LexTerms(ps: seq<string>, min: int, max: int): (ts: seq<Term>)
    requires forall p :: p in ps ==> WellFormedTerm(p, min, max)
    ensures |ts| == |ps|
    ensures forall i :: 0 <= i < |ps| ==> ts[i] == LexTerm(ps[i], min, max)
  {
    if |ps| == 0 then [] else [LexTerm(ps[0], min, max)] + LexTerms(ps[1..], min, max)
  }

  /** The terms of a field's text. */
  function LexField(tag: string, min: int, max: int): seq<Term>
    requires WellFormedField(tag, min, max)
  {
    if tag == "*" then [Wildcard]
    else if ',' in tag then LexTerms(Explode(',', tag), min, max)
    else [LexTerm(tag, min, max)]
  }

  /** parseTag("1-5/2", 0, 59) is [2, 4]. (The text is a parameter so that
      the verifier does not unfold the splits of a literal without bound.) */
  lemma ParseOneToFiveByTwo(tag: string)
    requires tag == "1-5/2"
    ensures WellFormedField(tag, 0, 59)
    ensures Expansion(LexField(tag, 0, 59), 0, 59) == Ok([2, 4])
  {
    assert IndexOf(tag, '/') == 3 && tag[..3] == "1-5" && tag[4..] == "2";
    assert Explode('/', tag) == ["1-5"] + Explode('/', "2");
    var number := "1-5";
    assert IndexOf(number, '-') == 1 && number[..1] == "1" && number[2..] == "5";
    assert Explode('-', number) == ["1"] + Explode('-', "5");
    assert ParseNat("1") == 1 && ParseNat("5") == 5 && ParseNat("2") == 2;
    assert LexTerm(tag, 0, 59) == Multiples(1, 5, 2);
    ExpandOneToFiveByTwo();
  }

  /** parseTag("10-5", 0, 59) raises: the range is inverted. */
  lemma ParseInvertedRange(tag: string)
    requires tag == "10-5"
    ensures WellFormedField(tag, 0, 59)
    ensures Expansion(LexField(tag, 0, 59), 0, 59) == Err(DomainError)
  {
    assert IndexOf(tag, '-') == 2 && tag[..2] == "10" && tag[3..] == "5";
    assert Explode('-', tag) == ["10"] + Explode('-', "5");
    var ten := "10";
    assert ten[..1] == "1";
    assert ParseNat(ten) == 10 && ParseNat("5") == 5;
    assert LexTerm(tag, 0, 59) == Span(10, 5);
    ExpandSpan(10, 5, 0, 59);
  }

  // ---------------------------------------------------------------------------
  // parseTag

  lemma InFieldAppend(us: seq<Term>, t: Term, v: int, min: int, max: int)
    ensures InField(us + [t], v, min, max) <==> InField(us, v, min, max) || Denotes(t, v, min, max)
  {
    var ws := us + [t];
    assert ws[|us|] == t;
    if InField(ws, v, min, max) {
      var i :| 0 <= i < |ws| && Denotes(ws[i], v, min, max);
      if i < |us| {
        assert ws[i] == us[i];
      }
    }
    if InField(us, v, min, max) {
      var i :| 0 <= i < |us| && Denotes(us[i], v, min, max);
      assert ws[i] == us[i];
    }
  }

  lemma AnyInvertedAppend(us: seq<Term>, t: Term)
    ensures AnyInverted(us + [t]) <==> AnyInverted(us) || Inverted(t)
  {
    var ws := us + [t];
    assert ws[|us|] == t;
    if AnyInverted(ws) {
      var i :| 0 <= i < |ws| && Inverted(ws[i]);
      if i < |us| {
        assert ws[i] == us[i];
      }
    }
    if AnyInverted(us) {
      var i :| 0 <= i < |us| && Inverted(us[i]);
      assert ws[i] == us[i];
    }
  }

  /** The final pass of parseTag, once the candidate values are collected. */
  lemma FinalPass(ts: seq<Term>, xs: seq<int>, ys: seq<int>, min: int, max: int)
    requires !AnyInverted(ts)
    requires forall v :: v in xs <==> InField(ts, v, min, max)
    requires forall i :: 0 <= i < |xs| ==> min <= xs[i] <= max
    requires StrictlySorted(ys) && forall v :: v in ys <==> v in xs
    ensures Expansion(ts, min, max) == Ok(ys)
  {
    forall v | InField(ts, v, min, max) ensures min <= v <= max {
      var i :| 0 <= i < |xs| && xs[i] == v;
    }
    MembersSpec(min, max, ts, min, max);
    SortedUnique(Members(min, max, ts, min, max), ys);
  }

  /** Insertion into an ascending duplicate-free sequence. */
  function Insert(ys: seq<int>, x: int): (zs: seq<int>)
    requires StrictlySorted(ys)
    ensures StrictlySorted(zs)
    ensures forall v :: v in zs <==> v in ys || v == x
  {
    if |ys| == 0 then [x]
    else if x < ys[0] then
      assert forall v :: v in ys ==> x < v by {
        forall v | v in ys ensures x < v { SortedHeadIsLeast(ys, v); }
      }
      PrependSorted(x, ys);
      [x] + ys
    else if x == ys[0] then ys
    else
      var tail := ys[1..];
      assert StrictlySorted(tail);
      var rest := Insert(tail, x);
      assert forall v :: v in rest ==> ys[0] < v by {
        forall v | v in rest ensures ys[0] < v {
          if v in tail {
            var j :| 0 <= j < |tail| && tail[j] == v;
            assert ys[j + 1] == v;
          }
        }
      }
      PrependSorted(ys[0], rest);
      assert ys == [ys[0]] + tail;
      [ys[0]] + rest
  }

  /** sort($dateList) followed by array_unique: the same values, ascending,
      each once. */
  method SortUnique(xs: seq<int>) returns (ys: seq<int>)
    ensures StrictlySorted(ys)
    ensures forall v :: v in ys <==> v in xs
  {
    ys := [];
    for i := 0 to |xs|
      invariant StrictlySorted(ys)
      invariant forall v :: v in ys <==> v in xs[..i]
    {
      ys := Insert(ys, xs[i]);
      assert xs[..i + 1] == xs[..i] + [xs[i]];
    }
    assert xs[..|xs|] == xs;
  }

  /** The candidate list of a field before its final pass: no range is
      inverted and the list holds exactly the field's values. */
  ghost predicate Collected(ts: seq<Term>, xs: seq<int>, min: int, max: int) {
    && !AnyInverted(ts)
    && forall v :: v in xs <==> InField(ts, v, min, max)
  }

  /** parseTag($tag, $min, $max) on a field in the intended grammar. */
  method ParseTag(tag: string, min: int, max: int) returns (r: Result<seq<int>>)
    requires min <= max
    requires WellFormedField(tag, min, max)
    ensures r == Expansion(LexField(tag, min, max), min, max)
    decreases |tag|, 1
  {
    if tag == "*" {
      ExpandWildcard(min, max);
      return Ok(IntRange(min, max));
    }
    ghost var ts := LexField(tag, min, max);
    var collected: Result<seq<int>>;
    if ',' in tag {
      collected := CollectList(tag, min, max);
    } else {
      collected := CollectTerm(tag, min, max);
    }
    if collected.Err? {
      return Err(DomainError);
    }
    var dateList := collected.value;
    assert Collected(ts, dateList, min, max);
    var inBounds := CheckBounds(dateList, min, max);
    if !inBounds {
      var i :| 0 <= i < |dateList| && !(min <= dateList[i] <= max);
      assert dateList[i] in dateList;
      return Err(DomainError);
    }
    var sorted := SortUnique(dateList);
    FinalPass(ts, dateList, sorted, min, max);
    return Ok(sorted);
  }

  /** The single-term branches of parseTag: `a-b/n`, `x/n`, `a-b` and a literal. */
  method CollectTerm(tag: string, min: int, max: int) returns (r: Result<seq<int>>)
    requires min <= max
    requires ',' !in tag && WellFormedTerm(tag, min, max)
    ensures r.Err? ==> Expansion([LexTerm(tag, min, max)], min, max).Err?
    ensures r.Ok? ==> Collected([LexTerm(tag, min, max)], r.value, min, max)
  {
    ghost var t := LexTerm(tag, min, max);
    SingletonField(t, min, max);
    if '/' in tag && '-' in tag {
      var parts := Explode('/', tag);
      var bounds := Explode('-', parts[0]);
      var left, right, mod := ParseNat(bounds[0]), ParseNat(bounds[1]), ParseNat(parts[1]);
      if left > right {
        return Err(DomainError);
      }
      var dateList := CollectMultiples(left, right, mod);
      MultiplesListSpec(left, right, mod);
      return Ok(dateList);
    } else if '/' in tag {
      var tmp := Explode('/', tag);
      var step := ParseNat(tmp[1]);
      StepRangeSpec(min, max, step);
      return Ok(StepRange(min, max, step));
    } else if '-' in tag {
      var bounds := Explode('-', tag);
      var left, right := ParseNat(bounds[0]), ParseNat(bounds[1]);
      if left > right {
        return Err(DomainError);
      }
      var dateList := IntRange(left, right);
      forall v ensures v in dateList <==> left <= v <= right {
        if left <= v <= right {
          assert dateList[v - left] == v;
        }
      }
      return Ok(dateList);
    } else {
      return Ok([ParseNat(tag)]);
    }
  }

  /** The comma branch of parseTag: each sub-term that checkExp accepts is
      expanded recursively and its values put in front; every other sub-term is
      appended as a literal, to be bounds-checked by the final pass. */
  method CollectList(tag: string, min: int, max: int) returns (r: Result<seq<int>>)
    requires min <= max
    requires ',' in tag && WellFormedField(tag, min, max)
    ensures r.Err? ==> Expansion(LexField(tag, min, max), min, max).Err?
    ensures r.Ok? ==> Collected(LexField(tag, min, max), r.value, min, max)
    decreases |tag|, 0
  {
    ghost var ts := LexField(tag, min, max);
    var tmp := Explode(',', tag);
    var dateList: seq<int> := [];
    for i := 0 to |tmp|
      invariant Collected(ts[..i], dateList, min, max)
    {
      var t := tmp[i];
      assert ts[..i + 1] == ts[..i] + [ts[i]];
      assert WellFormedTerm(t, min, max);
      if CheckExp(t) {
        var sub := ParseTag(t, min, max);
        SingletonExpansion(ts[i], min, max);
        if sub.Err? {
          ExpandListIsUnion(ts, min, max);
          return Err(DomainError);
        }
        dateList := sub.value + dateList;
      } else {
        dateList := dateList + [ParseNat(t)];
      }
      forall v ensures v in dateList <==> InField(ts[..i + 1], v, min, max) {
        InFieldAppend(ts[..i], ts[i], v, min, max);
      }
      AnyInvertedAppend(ts[..i], ts[i]);
    }
    assert ts[..|tmp|] == ts;
    return Ok(dateList);
  }

  /** The loop of the `a-b/n` branch: every n in [left, right] with n % mod == 0. */
  method CollectMultiples(left: int, right: int, mod: nat) returns (dateList: seq<int>)
    requires mod >= 1
    ensures dateList == MultiplesList(left, right, mod)
  {
    dateList := [];
    var n := left;
    while n <= right
      invariant n <= right + 1 || (n == left && left > right)
      invariant dateList == MultiplesList(left, n - 1, mod)
    {
      if n % mod == 0 {
        dateList := dateList + [n];
      }
      n := n + 1;
    }
  }

  /** The bounds pass of parseTag. */
  method CheckBounds(xs: seq<int>, min: int, max: int) returns (ok: bool)
    ensures ok <==> AllWithin(xs, min, max)
  {
    for i := 0 to |xs|
      invariant forall j :: 0 <= j < i ==> min <= xs[j] <= max
    {
      if xs[i] < min || xs[i] > max {
        return false;
      }
    }
    return true;
  }
}
