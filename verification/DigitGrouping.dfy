/**
 The two digit groupers: the regular-expression form of the genesis printer and the
 right-to-left insertion loop of the event formatter, both against `Grouped`.
 */
module DigitGrouping {
  import opened Numerals

  /** What grouping means: a separator before every full triple counted from the right. */
  function Grouped(x: string, sep: char): string
  {
    if |x| <= 3 then x
    else Grouped(x[..|x| - 3], sep) + [sep] + x[|x| - 3..]
  }

  // --- Regular-expression form: x.replace(/\B(?=(\d{3})+(?!\d))/g, sep) --------------------

  predicate IsDec(c: char)
  {
    '0' <= c <= '9'
  }

  predicate IsWord(c: char)
  {
    IsDec(c) || 'a' <= c <= 'z' || 'A' <= c <= 'Z' || c == '_'
  }

  /** `\B` at position p: the characters on both sides agree on being word characters. */
  predicate NotWordBoundary(x: string, p: nat)
    requires p <= |x|
  {
    (p > 0 && IsWord(x[p - 1])) == (p < |x| && IsWord(x[p]))
  }

  predicate DigitsBetween(x: string, p: nat, q: nat)
  {
    p <= q <= |x| && forall i :: p <= i < q ==> IsDec(x[i])
  }

  /** `(\d{3}){k}(?!\d)` matches at p. */
  predicate TriplesThenEnd(x: string, p: nat, k: nat)
  {
    DigitsBetween(x, p, p + 3 * k) && (p + 3 * k == |x| || !IsDec(x[p + 3 * k]))
  }

  predicate SeparatorAt(x: string, p: nat)
    requires p <= |x|
  {
    NotWordBoundary(x, p) && exists k :: 1 <= k <= |x| && TriplesThenEnd(x, p, k)
  }

  /** The output of the global replacement from position p on. */
  function ReplaceFrom(x: string, p: nat, sep: char): string
    requires p <= |x|
    decreases |x| - p
  {
    (if SeparatorAt(x, p) then [sep] else []) +
    (if p < |x| then [x[p]] + ReplaceFrom(x, p + 1, sep) else [])
  }

  function RegexGroup(x: string, sep: char): string
  {
    ReplaceFrom(x, 0, sep)
  }

  predicate AllDec(x: string)
  {
    forall i :: 0 <= i < |x| ==> IsDec(x[i])
  }

  // --- The regular expression refines `Grouped` -------------------------------------------

  /** In a string of digits the regular expression matches at every third place from the right. */
  lemma SeparatorPlaces(x: string, p: nat)
    requires AllDec(x) && p <= |x|
    ensures SeparatorAt(x, p) <==> 0 < p < |x| && (|x| - p) % 3 == 0
  {
    if 0 < p < |x| && (|x| - p) % 3 == 0 {
      assert TriplesThenEnd(x, p, (|x| - p) / 3);
    }
  }

  lemma {:induction false} ReplaceLastTriple(y: string, t: string, p: nat, sep: char)
    requires AllDec(y) && AllDec(t) && |t| == 3 && 0 < |y| && p <= |y|
    ensures ReplaceFrom(y + t, p, sep) == ReplaceFrom(y, p, sep) + [sep] + t
    decreases |y| - p
  {
    var x := y + t;
    LastTriplePlaces(y, t, p);
    if p < |y| {
      ReplaceLastTriple(y, t, p + 1, sep);
      var mark := if SeparatorAt(y, p) then [sep] else [];
      assert ReplaceFrom(y, p, sep) == mark + ([y[p]] + ReplaceFrom(y, p + 1, sep));
      assert ReplaceFrom(x, p, sep) == mark + ([y[p]] + (ReplaceFrom(y, p + 1, sep) + [sep] + t));
    } else {
      NoMoreSeparators(x, p + 1, sep);
      assert ReplaceFrom(x, p, sep) == [sep] + ([t[0]] + t[1..]);
      assert ReplaceFrom(y, p, sep) == [];
    }
  }

  lemma LastTriplePlaces(y: string, t: string, p: nat)
    requires AllDec(y) && AllDec(t) && |t| == 3 && 0 < |y| && p <= |y|
    ensures AllDec(y + t)
    ensures p < |y| ==> (SeparatorAt(y + t, p) <==> SeparatorAt(y, p))
    ensures p == |y| ==> SeparatorAt(y + t, p) && !SeparatorAt(y, p)
  {
    SeparatorPlaces(y + t, p);
    SeparatorPlaces(y, p);
  }

  lemma {:induction false} NoMoreSeparators(x: string, p: nat, sep: char)
    requires AllDec(x) && p <= |x| && (p == 0 || |x| - p < 3) && |x| - p <= 3
    ensures ReplaceFrom(x, p, sep) == x[p..]
    decreases |x| - p
  {
    SeparatorPlaces(x, p);
    if p < |x| {
      NoMoreSeparators(x, p + 1, sep);
      assert [x[p]] + x[p + 1..] == x[p..];
    }
  }

  /** The genesis printer's grouping is `Grouped` on every string of decimal digits. */
  lemma {:induction false} RegexRefinesGrouped(x: string, sep: char)
    requires AllDec(x)
    ensures RegexGroup(x, sep) == Grouped(x, sep)
    decreases |x|
  {
    if |x| <= 3 {
      NoMoreSeparators(x, 0, sep);
    } else {
      var y, t := x[..|x| - 3], x[|x| - 3..];
      assert x == y + t;
      ReplaceLastTriple(y, t, 0, sep);
      RegexRefinesGrouped(y, sep);
    }
  }

  // --- The regular expression on mixed strings --------------------------------------------

  lemma TriplesBeforeCut(a: string, c: char, b: string, p: nat, k: nat)
    requires !IsDec(c) && p <= |a|
    ensures TriplesThenEnd(a + [c] + b, p, k) <==> TriplesThenEnd(a, p, k)
  {
    var x, q := a + [c] + b, p + 3 * k;
    assert x[|a|] == c;
    if q <= |a| {
      assert forall i :: 0 <= i < |a| ==> x[i] == a[i];
    } else if DigitsBetween(x, p, q) {
      assert false;
    }
  }

  lemma SeparatorBeforeCut(a: string, c: char, b: string, p: nat)
    requires !IsWord(c) && p <= |a|
    ensures SeparatorAt(a + [c] + b, p) <==> SeparatorAt(a, p)
  {
    var x := a + [c] + b;
    assert NotWordBoundary(x, p) == NotWordBoundary(a, p);
    if SeparatorAt(x, p) {
      var k :| 1 <= k <= |x| && TriplesThenEnd(x, p, k);
      TriplesBeforeCut(a, c, b, p, k);
    }
    if SeparatorAt(a, p) {
      var k :| 1 <= k <= |a| && TriplesThenEnd(a, p, k);
      TriplesBeforeCut(a, c, b, p, k);
    }
  }

  lemma TriplesAfterCut(x: string, a: string, b: string, p: nat, k: nat)
    requires |x| == |a| + 1 + |b| && x[|a| + 1..] == b && p <= |b|
    ensures TriplesThenEnd(x, |a| + 1 + p, k) <==> TriplesThenEnd(b, p, k)
  {
  }

  lemma SeparatorAfterCut(a: string, c: char, b: string, p: nat)
    requires !IsWord(c) && p <= |b|
    ensures SeparatorAt(a + [c] + b, |a| + 1 + p) <==> SeparatorAt(b, p)
  {
    var x, q := a + [c] + b, |a| + 1 + p;
    assert x[|a| + 1..] == b;
    if SeparatorAt(x, q) {
      var k :| 1 <= k <= |x| && TriplesThenEnd(x, q, k);
      TriplesAfterCut(x, a, b, p, k);
      assert p < |b| && IsDec(b[p]) && x[q] == b[p];
      assert x[q - 1] == if p == 0 then c else b[p - 1];
    }
    if SeparatorAt(b, p) {
      var k :| 1 <= k <= |b| && TriplesThenEnd(b, p, k);
      TriplesAfterCut(x, a, b, p, k);
      assert p < |b| && IsDec(b[p]) && x[q] == b[p];
      assert p > 0 && x[q - 1] == b[p - 1];
    }
  }

  lemma {:induction false} ReplaceAfterCut(a: string, c: char, b: string, p: nat, sep: char)
    requires !IsWord(c) && p <= |b|
    ensures ReplaceFrom(a + [c] + b, |a| + 1 + p, sep) == ReplaceFrom(b, p, sep)
    decreases |b| - p
  {
    SeparatorAfterCut(a, c, b, p);
    if p < |b| {
      ReplaceAfterCut(a, c, b, p + 1, sep);
    }
  }

  lemma {:induction false} ReplaceAcrossCut(a: string, c: char, b: string, p: nat, sep: char)
    requires !IsWord(c) && p <= |a|
    ensures ReplaceFrom(a + [c] + b, p, sep) == ReplaceFrom(a, p, sep) + [c] + RegexGroup(b, sep)
    decreases |a| - p
  {
    SeparatorBeforeCut(a, c, b, p);
    if p < |a| {
      ReplaceAcrossCut(a, c, b, p + 1, sep);
    } else {
      ReplaceAfterCut(a, c, b, 0, sep);
      assert !SeparatorAt(a, p);
      assert ReplaceFrom(a, p, sep) == [];
    }
  }

  /** A non-word character splits the input: each side is grouped on its own, fractions included. */
  lemma RegexSplitsAtNonWord(a: string, c: char, b: string, sep: char)
    requires !IsWord(c)
    ensures RegexGroup(a + [c] + b, sep) == RegexGroup(a, sep) + [c] + RegexGroup(b, sep)
  {
    ReplaceAcrossCut(a, c, b, 0, sep);
  }

  // --- The insertion loop -----------------------------------------------------------------

  function IndexOf(x: string, c: char): int
    ensures -1 <= IndexOf(x, c) < |x|
    ensures IndexOf(x, c) < 0 ==> c !in x
    ensures IndexOf(x, c) >= 0 ==> x[IndexOf(x, c)] == c && c !in x[..IndexOf(x, c)]
  {
    if x == [] then -1
    else if x[0] == c then 0
    else
      var i := IndexOf(x[1..], c);
      if i < 0 then -1 else i + 1
  }

  function IntegerEnd(x: string): (e: nat)
    ensures e <= |x|
  {
    if IndexOf(x, '.') < 0 then |x| else IndexOf(x, '.')
  }

  /** What the insertion loop computes: only the part before the first '.' is grouped. */
  function LoopGroup(x: string): string
  {
    Grouped(x[..IntegerEnd(x)], '_') + x[IntegerEnd(x)..]
  }

  lemma GroupedCut(input: string, m: nat)
    requires 3 < m <= |input|
    ensures Grouped(input[..m], '_') == Grouped(input[..m - 3], '_') + ['_'] + input[m - 3..m]
  {
    assert input[..m][..m - 3] == input[..m - 3] && input[..m][m - 3..] == input[m - 3..m];
  }

  lemma InsertAt(x: string, front: string, triple: string, rest: string)
    requires x == front + triple + rest
    ensures x[..|front|] + ['_'] + x[|front|..] == front + (['_'] + triple + rest)
  {
  }

  /** Inserting at p moves one triple from the ungrouped front to the grouped rest. */
  lemma InsertionStep(input: string, p: nat, x: string, rest: string)
    requires 0 < p && p + 3 <= |input| && x == input[..p + 3] + rest
    ensures var rest' := ['_'] + input[p..p + 3] + rest;
            && x[..p] + ['_'] + x[p..] == input[..p] + rest'
            && Grouped(input[..p + 3], '_') + rest == Grouped(input[..p], '_') + rest'
  {
    var triple := input[p..p + 3];
    GroupedCut(input, p + 3);
    assert input[..p + 3] == input[..p] + triple;
    InsertAt(x, input[..p], triple, rest);
    MoveLeft(Grouped(input[..p], '_'), ['_'], triple, rest);
  }

  method GroupIntegerDigits(input: string) returns (x: string)
    ensures x == LoopGroup(input)
  {
    x := input;
    var startp := IndexOf(x, '.');
    if startp < 0 {
      startp := |x|;
    }
    ghost var rest := input[startp..];
    assert input == input[..startp] + rest;
    var p := startp - 3;
    while p > 0
      invariant 0 <= p + 3 <= startp <= |input|
      invariant x == input[..p + 3] + rest
      invariant Grouped(input[..p + 3], '_') + rest == LoopGroup(input)
    {
      InsertionStep(input, p, x, rest);
      rest := ['_'] + input[p..p + 3] + rest;
      x := x[..p] + ['_'] + x[p..];
      p := p - 3;
    }
  }

  // --- Agreement of the two forms ---------------------------------------------------------

  lemma {:induction false} GroupedLength(x: string, sep: char)
    ensures |Grouped(x, sep)| == |x| + (if x == [] then 0 else (|x| - 1) / 3)
    decreases |x|
  {
    if |x| > 3 {
      GroupedLength(x[..|x| - 3], sep);
    }
  }

  /** The character at a position counted from the right end. */
  function FromRight(g: string, j: nat): char
    requires j < |g|
  {
    g[|g| - 1 - j]
  }

  /** A separator exactly after every third digit from the right, never in front; digits elsewhere. */
  ghost predicate InTriples(g: string, sep: char)
  {
    && g != [] && IsDec(g[0])
    && forall j :: 0 <= j < |g| ==> if j % 4 == 3 then FromRight(g, j) == sep else IsDec(FromRight(g, j))
  }

  lemma AppendTriple(g: string, sep: char, t: string)
    requires InTriples(g, sep) && AllDec(t) && |t| == 3
    ensures InTriples(g + [sep] + t, sep)
  {
    var s := g + [sep] + t;
    forall j | 0 <= j < |s| ensures if j % 4 == 3 then FromRight(s, j) == sep else IsDec(FromRight(s, j)) {
      if j >= 4 {
        assert FromRight(s, j) == FromRight(g, j - 4);
      } else if j < 3 {
        assert FromRight(s, j) == t[2 - j];
      }
    }
    assert s[0] == g[0];
  }

  /** Grouping by positions: both groupers write digits in triples. */
  lemma {:induction false} GroupedInTriples(x: string, sep: char)
    requires AllDec(x) && x != []
    ensures InTriples(Grouped(x, sep), sep)
    decreases |x|
  {
    if |x| <= 3 {
      forall j | 0 <= j < |x| ensures IsDec(FromRight(x, j)) {
        assert IsDec(x[|x| - 1 - j]);
      }
    } else {
      GroupedInTriples(x[..|x| - 3], sep);
      AppendTriple(Grouped(x[..|x| - 3], sep), sep, x[|x| - 3..]);
    }
  }

  lemma NoDotInDigits(x: string)
    requires AllDec(x)
    ensures IntegerEnd(x) == |x|
  {
  }

  /** On every string of decimal digits the two groupers print the same. */
  lemma GroupersAgreeOnDigits(x: string)
    requires AllDec(x)
    ensures LoopGroup(x) == RegexGroup(x, '_')
  {
    NoDotInDigits(x);
    RegexRefinesGrouped(x, '_');
    assert x[..|x|] == x;
  }

  lemma {:induction false} IndexAfterPrefix(a: string, b: string)
    requires AllDec(a)
    ensures IndexOf(a + ['.'] + b, '.') == |a|
  {
    var x := a + ['.'] + b;
    if a != [] {
      assert x[1..] == a[1..] + ['.'] + b;
      IndexAfterPrefix(a[1..], b);
      assert IsDec(x[0]);
    }
  }

  lemma LoopOnFraction(a: string, b: string)
    requires AllDec(a)
    ensures LoopGroup(a + ['.'] + b) == Grouped(a, '_') + ['.'] + b
  {
    IndexAfterPrefix(a, b);
    LoopAt(a + ['.'] + b, a, ['.'] + b);
    assert Grouped(a, '_') + (['.'] + b) == Grouped(a, '_') + ['.'] + b;
  }

  lemma LoopAt(x: string, a: string, rest: string)
    requires x == a + rest && IntegerEnd(x) == |a|
    ensures LoopGroup(x) == Grouped(a, '_') + rest
  {
    assert x[..|a|] == a && x[|a|..] == rest;
  }

  lemma RegexOnFraction(a: string, b: string)
    requires AllDec(a) && AllDec(b)
    ensures RegexGroup(a + ['.'] + b, '_') == Grouped(a, '_') + ['.'] + Grouped(b, '_')
  {
    RegexSplitsAtNonWord(a, '.', b, '_');
    RegexRefinesGrouped(a, '_');
    RegexRefinesGrouped(b, '_');
  }

  lemma CancelPrefix(p: string, u: string, v: string)
    ensures p + u == p + v <==> u == v
  {
    assert (p + u)[|p|..] == u && (p + v)[|p|..] == v;
  }

  /** With a fraction they agree exactly when the fraction is too short to be grouped. */
  lemma GroupersOnFractions(a: string, b: string)
    requires AllDec(a) && AllDec(b)
    ensures LoopGroup(a + ['.'] + b) == Grouped(a, '_') + ['.'] + b
    ensures LoopGroup(a + ['.'] + b) == RegexGroup(a + ['.'] + b, '_') <==> |b| <= 3
  {
    LoopOnFraction(a, b);
    RegexOnFraction(a, b);
    CancelPrefix(Grouped(a, '_') + ['.'], b, Grouped(b, '_'));
    GroupedLength(b, '_');
  }

  lemma {:induction false} GroupedWithSign(d: string, sep: char)
    requires |d| % 3 != 0
    ensures Grouped(['-'] + d, sep) == ['-'] + Grouped(d, sep)
    decreases |d|
  {
    if |d| > 3 {
      var s, y, t := ['-'] + d, d[..|d| - 3], d[|d| - 3..];
      SignBeforeTriple(d, s);
      ThreeLess(|d|);
      GroupedWithSign(y, sep);
      assert Grouped(s, sep) == Grouped(['-'] + y, sep) + [sep] + t;
      MoveLeft(['-'], Grouped(y, sep), [sep], t);
    }
  }

  lemma ThreeLess(n: nat)
    requires n > 3 && n % 3 != 0
    ensures (n - 3) % 3 != 0
  {
  }

  lemma SignBeforeTriple(d: string, s: string)
    requires |d| > 3 && s == ['-'] + d
    ensures |d[..|d| - 3]| == |d| - 3
    ensures s[..|s| - 3] == ['-'] + d[..|d| - 3] && s[|s| - 3..] == d[|d| - 3..]
  {
  }

  lemma MoveLeft(a: string, b: string, c: string, d: string)
    ensures (a + b) + c + d == a + (b + c + d)
    ensures (a + b + c) + d == a + (b + c + d)
  {
  }

  /**
   On a signed numeral they agree exactly when the digits do not fill whole triples: "-123" is
   printed "-_123" by the loop, while the regular expression sees a word boundary there.
   */
  lemma GroupersOnSigned(d: string)
    requires IsNumeral(d, 10)
    ensures LoopGroup(['-'] + d) == RegexGroup(['-'] + d, '_') <==> |d| % 3 != 0
  {
    var s := ['-'] + d;
    assert AllDec(d);
    assert '.' !in s;
    assert s[..|s|] == s;
    assert LoopGroup(s) == Grouped(s, '_');
    assert s == [] + ['-'] + d;
    RegexSplitsAtNonWord([], '-', d, '_');
    RegexRefinesGrouped(d, '_');
    NoMoreSeparators([], 0, '_');
    assert RegexGroup(s, '_') == ['-'] + Grouped(d, '_');
    if |d| % 3 != 0 {
      GroupedWithSign(d, '_');
    } else {
      GroupedLength(s, '_');
      GroupedLength(d, '_');
    }
  }

  // --- Deleting the separators ------------------------------------------------------------

  /** `x.replace(/[...]/g, "")` for a character class. */
  function Strip(x: string, drop: set<char>): string
  {
    if x == [] then []
    else (if x[0] in drop then [] else [x[0]]) + Strip(x[1..], drop)
  }

  lemma {:induction false} StripConcat(a: string, b: string, drop: set<char>)
    ensures Strip(a + b, drop) == Strip(a, drop) + Strip(b, drop)
  {
    if a == [] {
      assert a + b == b;
    } else {
      StripConcat(a[1..], b, drop);
      assert (a + b)[1..] == a[1..] + b;
      var h := if a[0] in drop then [] else [a[0]];
      assert h + (Strip(a[1..], drop) + Strip(b, drop)) == (h + Strip(a[1..], drop)) + Strip(b, drop);
    }
  }

  lemma {:induction false} StripKeeps(x: string, drop: set<char>)
    requires forall i :: 0 <= i < |x| ==> x[i] !in drop
    ensures Strip(x, drop) == x
  {
    if x != [] {
      StripKeeps(x[1..], drop);
    }
  }

  lemma {:induction false} StripGrouped(x: string, sep: char, drop: set<char>)
    requires sep in drop
    ensures Strip(Grouped(x, sep), drop) == Strip(x, drop)
    decreases |x|
  {
    if |x| > 3 {
      var y, t := x[..|x| - 3], x[|x| - 3..];
      StripGrouped(y, sep, drop);
      StripConcat(Grouped(y, sep) + [sep], t, drop);
      StripConcat(Grouped(y, sep), [sep], drop);
      StripConcat(y, t, drop);
      assert Strip([sep], drop) == [];
      assert x == y + t;
    }
  }

  lemma StripThenChar(mark: string, c: char, rest: string, sep: char, drop: set<char>)
    requires sep in drop && (mark == [sep] || mark == [])
    ensures Strip(mark + ([c] + rest), drop) == Strip([c], drop) + Strip(rest, drop)
  {
    StripConcat(mark, [c] + rest, drop);
    StripConcat([c], rest, drop);
    assert Strip(mark, drop) == [];
  }

  lemma {:induction false} StripReplaceFrom(x: string, p: nat, sep: char, drop: set<char>)
    requires sep in drop && p <= |x|
    ensures Strip(ReplaceFrom(x, p, sep), drop) == Strip(x[p..], drop)
    decreases |x| - p
  {
    var mark := if SeparatorAt(x, p) then [sep] else [];
    if p < |x| {
      StripReplaceFrom(x, p + 1, sep, drop);
      StripThenChar(mark, x[p], ReplaceFrom(x, p + 1, sep), sep, drop);
      StripConcat([x[p]], x[p + 1..], drop);
      assert x[p..] == [x[p]] + x[p + 1..];
    } else {
      assert ReplaceFrom(x, p, sep) == mark + [] == mark;
      assert Strip(mark, drop) == [];
    }
  }

  /** Deleting the separators undoes either grouper, on every input string. */
  lemma StripUndoesGroupers(x: string, sep: char, drop: set<char>)
    ensures sep in drop ==> Strip(RegexGroup(x, sep), drop) == Strip(x, drop)
    ensures '_' in drop ==> Strip(LoopGroup(x), drop) == Strip(x, drop)
  {
    if sep in drop {
      StripReplaceFrom(x, 0, sep, drop);
      assert x[0..] == x;
    }
    if '_' in drop {
      var e := IntegerEnd(x);
      StripGrouped(x[..e], '_', drop);
      StripConcat(Grouped(x[..e], '_'), x[e..], drop);
      StripConcat(x[..e], x[e..], drop);
      assert x == x[..e] + x[e..];
    }
  }
}
