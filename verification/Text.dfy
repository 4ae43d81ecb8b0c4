/** The string operations the source relies on: decimal rendering and `u16` parsing, splitting and
    joining on one character, and lexicographic comparison. */
module Text {
  import opened Types

  predicate IsDigit(c: char) { '0' <= c <= '9' }

  predicate AllDigits(s: string) { forall i | 0 <= i < |s| :: IsDigit(s[i]) }

  predicate HasPrefix(s: string, prefix: string) {
    |prefix| <= |s| && s[..|prefix|] == prefix
  }

  predicate Contains(s: string, t: string) {
    exists i | 0 <= i <= |s| :: HasPrefix(s[i..], t)
  }

  // Decimal numbers

  function RenderNat(n: nat): (s: string)
    ensures s != "" && AllDigits(s)
  {
    if n < 10 then [n as char + '0'] else RenderNat(n / 10) + [(n % 10) as char + '0']
  }

  function DigitsValue(s: string): nat
    requires AllDigits(s)
  {
    if s == "" then 0 else 10 * DigitsValue(s[..|s| - 1]) + (s[|s| - 1] - '0') as nat
  }

  /** `str::parse::<u16>`: an optional plus sign, then at least one digit, at most 65535. */
  function ParseU16(s: string): Option<nat> {
    var body := if |s| > 1 && s[0] == '+' then s[1..] else s;
    if body == "" || !AllDigits(body) || DigitsValue(body) > 65535 then None else Some(DigitsValue(body))
  }

  lemma {:induction false} ValueOfRender(n: nat)
    ensures DigitsValue(RenderNat(n)) == n
  {
    if n >= 10 {
      ValueOfRender(n / 10);
      assert RenderNat(n)[..|RenderNat(n)| - 1] == RenderNat(n / 10);
    }
  }

  lemma ParseOfRender(n: nat)
    ensures ParseU16(RenderNat(n)) == if n <= 65535 then Some(n) else None
  {
    ValueOfRender(n);
    assert IsDigit(RenderNat(n)[0]);
  }

  /** Two strings that end in a separator followed by a number agree only if the numbers do. */
  lemma NumberedSuffix(s: string, i: nat, t: string, j: nat)
    requires s + "_" + RenderNat(i) == t + "_" + RenderNat(j)
    ensures i == j
  {
    var u := s + "_" + RenderNat(i);
    UnderscoreThenDigits(s, i, u);
    UnderscoreThenDigits(t, j, u);
    ValueOfRender(i);
    ValueOfRender(j);
  }

  lemma UnderscoreThenDigits(s: string, i: nat, u: string)
    requires u == s + "_" + RenderNat(i)
    ensures u[|s|] == '_' && u[|s| + 1..] == RenderNat(i)
    ensures forall k | |s| < k < |u| :: IsDigit(u[k])
  {
  }

  // Splitting and joining

  function Split(s: string, sep: char): (parts: seq<string>)
    ensures parts != []
    ensures forall p | p in parts :: sep !in p
  {
    if s == "" then [""]
    else
      var rest := Split(s[1..], sep);
      if s[0] == sep then [""] + rest else [[s[0]] + rest[0]] + rest[1..]
  }

  function Join(parts: seq<string>, sep: char): string {
    if parts == [] then ""
    else if |parts| == 1 then parts[0]
    else parts[0] + [sep] + Join(parts[1..], sep)
  }

  /** Joining what was split gives the string back. */
  lemma {:induction false} JoinOfSplit(s: string, sep: char)
    ensures Join(Split(s, sep), sep) == s
  {
    if s != "" {
      JoinOfSplit(s[1..], sep);
      var rest := Split(s[1..], sep);
      if s[0] != sep && |rest| > 1 {
        assert ([[s[0]] + rest[0]] + rest[1..])[1..] == rest[1..];
      }
    }
  }

  lemma {:induction false} SplitOfPrefix(p: string, rest: string, sep: char)
    requires sep !in p
    ensures Split(p, sep) == [p]
    ensures Split(p + [sep] + rest, sep) == [p] + Split(rest, sep)
  {
    var whole := p + [sep] + rest;
    if p == "" {
      assert whole[1..] == rest;
    } else {
      SplitOfPrefix(p[1..], rest, sep);
      assert whole[1..] == p[1..] + [sep] + rest;
      assert [p[0]] + p[1..] == p;
    }
  }

  /** Splitting what was joined gives the parts back, when there are any and none has the separator. */
  lemma {:induction false} SplitOfJoin(parts: seq<string>, sep: char)
    requires parts != [] && forall p | p in parts :: sep !in p
    ensures Split(Join(parts, sep), sep) == parts
  {
    assert sep !in parts[0];
    if |parts| == 1 {
      SplitOfPrefix(parts[0], "", sep);
    } else {
      SplitOfJoin(parts[1..], sep);
      SplitOfPrefix(parts[0], Join(parts[1..], sep), sep);
    }
  }

  /** Joining separator-free lists is injective, except that `[]` and `[""]` collide. */
  lemma JoinInjective(a: seq<string>, b: seq<string>, sep: char)
    requires forall p | p in a :: sep !in p
    requires forall p | p in b :: sep !in p
    ensures Join(a, sep) == Join(b, sep) <==> a == b || (a == [] && b == [""]) || (a == [""] && b == [])
  {
    if a != [] { SplitOfJoin(a, sep); }
    if b != [] { SplitOfJoin(b, sep); }
    assert Split("", sep) == [""];
  }

  // Comparison

  datatype Ordering = Less | Equal | Greater {
    function Then(next: Ordering): Ordering { if Equal? then next else this }
  }

  function CompareNat(a: nat, b: nat): Ordering {
    if a < b then Less else if a == b then Equal else Greater
  }

  function CompareReal(a: real, b: real): Ordering {
    if a < b then Less else if a == b then Equal else Greater
  }

  function Compare(a: string, b: string): Ordering {
    if a == "" then if b == "" then Equal else Less
    else if b == "" then Greater
    else if a[0] < b[0] then Less
    else if a[0] > b[0] then Greater
    else Compare(a[1..], b[1..])
  }

  lemma {:induction false} CompareLaws(a: string, b: string)
    ensures Compare(a, b).Equal? <==> a == b
    ensures Compare(a, b).Less? <==> Compare(b, a).Greater?
  {
    if a != "" && b != "" {
      CompareLaws(a[1..], b[1..]);
      assert a == [a[0]] + a[1..] && b == [b[0]] + b[1..];
    }
  }

  lemma {:induction false} CompareTransitive(a: string, b: string, c: string)
    requires !Compare(a, b).Greater? && !Compare(b, c).Greater?
    ensures !Compare(a, c).Greater?
    ensures Compare(a, c).Equal? ==> Compare(a, b).Equal? && Compare(b, c).Equal?
  {
    if a != "" && b != "" && c != "" && a[0] == b[0] && b[0] == c[0] {
      CompareTransitive(a[1..], b[1..], c[1..]);
    }
  }

  /** Lexicographic order: `a` is a prefix of `b`, or smaller where they first differ. */
  ghost predicate NotAfter(a: string, b: string) {
    a <= b || exists k: nat :: FirstDifference(a, b, k) && a[k] < b[k]
  }

  predicate FirstDifference(a: string, b: string, k: nat) {
    k < |a| && k < |b| && a[..k] == b[..k] && a[k] != b[k]
  }

  lemma DifferenceShifts(a: string, b: string, k: nat)
    requires a != "" && b != "" && a[0] == b[0]
    ensures FirstDifference(a[1..], b[1..], k) <==> FirstDifference(a, b, k + 1)
  {
    if k < |a| - 1 && k < |b| - 1 {
      assert a[..k + 1] == [a[0]] + a[1..][..k] && b[..k + 1] == [b[0]] + b[1..][..k];
      assert a[1..][..k] == a[..k + 1][1..] && b[1..][..k] == b[..k + 1][1..];
    }
  }

  lemma SameBefore(a: string, b: string, j: nat, k: nat)
    requires FirstDifference(a, b, k) && j < k
    ensures a[j] == b[j]
  {
    assert a[j] == a[..k][j] && b[j] == b[..k][j];
  }

  lemma OneDifference(a: string, b: string, j: nat, k: nat)
    requires FirstDifference(a, b, j) && FirstDifference(a, b, k)
    ensures j == k
  {
    if j < k {
      SameBefore(a, b, j, k);
    } else if k < j {
      SameBefore(a, b, k, j);
    }
  }

  lemma PrefixShifts(a: string, b: string)
    requires a != "" && b != "" && a[0] == b[0]
    ensures a[1..] <= b[1..] <==> a <= b
  {
    assert a == [a[0]] + a[1..] && b == [b[0]] + b[1..];
    if a <= b {
      assert b[..|a|][1..] == b[1..][..|a| - 1];
    }
  }

  lemma NotAfterShifts(a: string, b: string)
    requires a != "" && b != "" && a[0] == b[0]
    ensures NotAfter(a[1..], b[1..]) <==> NotAfter(a, b)
  {
    PrefixShifts(a, b);
    if k: nat :| FirstDifference(a[1..], b[1..], k) && a[1..][k] < b[1..][k] {
      DifferenceShifts(a, b, k);
      assert a[k + 1] < b[k + 1];
    }
    if k: nat :| FirstDifference(a, b, k) && a[k] < b[k] {
      DifferenceShifts(a, b, k - 1);
      assert a[1..][k - 1] < b[1..][k - 1];
    }
  }

  /** The comparison of strings is the lexicographic order. */
  lemma {:induction false} CompareIsLexicographic(a: string, b: string)
    ensures !Compare(a, b).Greater? <==> NotAfter(a, b)
  {
    if a != "" && b != "" {
      if a[0] == b[0] {
        CompareIsLexicographic(a[1..], b[1..]);
        NotAfterShifts(a, b);
      } else {
        HeadsDecide(a, b);
      }
    }
  }

  lemma HeadsDecide(a: string, b: string)
    requires a != "" && b != "" && a[0] != b[0]
    ensures NotAfter(a, b) <==> a[0] < b[0]
  {
    assert a[..0] == b[..0];
    assert FirstDifference(a, b, 0);
    forall k: nat | FirstDifference(a, b, k) ensures k == 0 {
      OneDifference(a, b, 0, k);
    }
  }

  predicate OccursAt(s: string, t: string, i: nat) {
    i + |t| <= |s| && s[i..i + |t|] == t
  }

  lemma SuffixPrefix(s: string, t: string, i: nat)
    requires i <= |s|
    ensures HasPrefix(s[i..], t) <==> OccursAt(s, t, i)
  {
    if i + |t| <= |s| {
      assert s[i..][..|t|] == s[i..i + |t|];
    }
  }

  lemma ContainsMeans(s: string, t: string)
    ensures Contains(s, t) <==> exists i: nat :: OccursAt(s, t, i)
  {
    forall i: nat | i <= |s| ensures HasPrefix(s[i..], t) <==> OccursAt(s, t, i) {
      SuffixPrefix(s, t, i);
    }
    if i: nat :| OccursAt(s, t, i) {
      assert HasPrefix(s[i..], t);
    }
  }
}
