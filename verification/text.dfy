/** The string primitives the source borrows from .NET: `Trim`, `StartsWith`,
    `IndexOf`, `Replace`, `Split`, `string.Join`, `Distinct` and integer
    formatting, each with the properties the rest of the model relies on. */
module Text {

  /** The characters `String.Trim()` strips in this model: the ASCII white space. */
  predicate IsWhite(c: char) {
    c == ' ' || c == '\t' || c == '\n' || c == '\r' || c == '\U{0B}' || c == '\U{0C}'
  }

  function TrimStart(s: string): (r: string)
    ensures |r| <= |s| && r == s[|s| - |r|..]
    ensures forall k :: 0 <= k < |s| - |r| ==> IsWhite(s[k])
    ensures r == [] || !IsWhite(r[0])
  {
    if |s| > 0 && IsWhite(s[0]) then TrimStart(s[1..]) else s
  }

  function TrimEnd(s: string): (r: string)
    ensures |r| <= |s| && r == s[..|r|]
    ensures forall k :: |r| <= k < |s| ==> IsWhite(s[k])
    ensures r == [] || !IsWhite(r[|r| - 1])
  {
    if |s| > 0 && IsWhite(s[|s| - 1]) then TrimEnd(s[..|s| - 1]) else s
  }

  /** The column of the first non-white character (|s| when there is none). */
  function LeadingWhite(s: string): nat {
    |s| - |TrimStart(s)|
  }

  /** `String.Trim()`: the largest infix of `s` with no white character at either end. */
  function Trim(s: string): (r: string)
    ensures LeadingWhite(s) + |r| <= |s|
    ensures r == s[LeadingWhite(s)..LeadingWhite(s) + |r|]
    ensures forall k :: 0 <= k < LeadingWhite(s) ==> IsWhite(s[k])
    ensures forall k :: LeadingWhite(s) + |r| <= k < |s| ==> IsWhite(s[k])
    ensures r == [] || (!IsWhite(r[0]) && !IsWhite(r[|r| - 1]))
  {
    TrimEnd(TrimStart(s))
  }

  lemma TrimStartKeeps(s: string)
    requires |s| > 0 && !IsWhite(s[0])
    ensures TrimStart(s) == s
  {
  }

  lemma TrimEndKeeps(s: string)
    requires |s| > 0 && !IsWhite(s[|s| - 1])
    ensures TrimEnd(s) == s
  {
  }

  /** A text with no white character at either end is its own trim. */
  lemma TrimOfTrimmed(s: string)
    requires s == [] || (!IsWhite(s[0]) && !IsWhite(s[|s| - 1]))
    ensures Trim(s) == s
  {
    if s != [] {
      TrimStartKeeps(s);
      TrimEndKeeps(s);
    }
  }

  predicate StartsWith(s: string, prefix: string) {
    |prefix| <= |s| && s[..|prefix|] == prefix
  }

  /** `String.IndexOf(char)`: the first position of `c`, or -1. */
  function IndexOf(s: string, c: char): (r: int)
    ensures -1 <= r < |s|
    ensures r == -1 <==> c !in s
    ensures r >= 0 ==> s[r] == c && c !in s[..r]
  {
    if |s| == 0 then -1
    else if s[0] == c then 0
    else
      var k := IndexOf(s[1..], c);
      if k == -1 then -1
      else
        assert s[..k + 1] == [s[0]] + s[1..][..k];
        k + 1
  }

  /** The first character `Trim` keeps is found by `IndexOf` at the column
      where the white prefix ends. */
  lemma FirstNonWhiteColumn(s: string)
    requires Trim(s) != []
    ensures IndexOf(s, Trim(s)[0]) == LeadingWhite(s)
  {
    var c := Trim(s)[0];
    var lw := LeadingWhite(s);
    assert s[lw] == c;
    var r := IndexOf(s, c);
    forall k | 0 <= k < r
      ensures s[k] != c
    {
      assert s[..r][k] == s[k];
    }
    forall k | 0 <= k < lw
      ensures s[k] != c
    {
      assert IsWhite(s[k]);
    }
  }

  // ---------------------------------------------------------------------------
  // String.Replace(string, string)

  predicate MatchAt(s: string, pat: string, k: nat) {
    k + |pat| <= |s| && s[k..k + |pat|] == pat
  }

  predicate Occurs(s: string, pat: string) {
    exists k: nat :: k <= |s| && MatchAt(s, pat, k)
  }

  lemma OccursInTail(s: string, pat: string)
    requires |s| > 0
    ensures Occurs(s[1..], pat) ==> Occurs(s, pat)
  {
    if Occurs(s[1..], pat) {
      var k: nat :| k <= |s| - 1 && MatchAt(s[1..], pat, k);
      assert s[k + 1..k + 1 + |pat|] == s[1..][k..k + |pat|];
      assert MatchAt(s, pat, k + 1);
    }
  }

  /** `String.Replace(pat, rep)` with a non-empty pattern: the leftmost
      occurrence is replaced, scanning resumes after it, and the inserted text
      is never scanned again. Text without the pattern comes back unchanged. */
  function ReplaceAll(s: string, pat: string, rep: string): (r: string)
    requires |pat| > 0
    ensures !Occurs(s, pat) ==> r == s
    decreases |s|
  {
    if |s| < |pat| then s
    else if s[..|pat|] == pat then
      assert MatchAt(s, pat, 0);
      rep + ReplaceAll(s[|pat|..], pat, rep)
    else
      OccursInTail(s, pat);
      [s[0]] + ReplaceAll(s[1..], pat, rep)
  }

  lemma NoSingleOccurrence(s: string, c: char)
    requires c !in s
    ensures !Occurs(s, [c])
  {
    forall k: nat | k <= |s|
      ensures !MatchAt(s, [c], k)
    {
      if k + 1 <= |s| {
        assert s[k..k + 1][0] == s[k];
      }
    }
  }

  /** Replacing a pattern by itself is the identity. */
  lemma {:induction false} ReplaceByItself(s: string, pat: string)
    requires |pat| > 0
    ensures ReplaceAll(s, pat, pat) == s
    decreases |s|
  {
    if |s| < |pat| {
    } else if s[..|pat|] == pat {
      ReplaceByItself(s[|pat|..], pat);
      assert s == s[..|pat|] + s[|pat|..];
    } else {
      ReplaceByItself(s[1..], pat);
      assert s == [s[0]] + s[1..];
    }
  }

  /** Replacing every occurrence by a marker character absent from the text,
      then every marker by the pattern, restores the text: occurrences are
      found left to right without overlap. */
  lemma {:induction false} ReplaceRoundTrip(s: string, pat: string, c: char)
    requires |pat| > 0 && c !in s
    ensures ReplaceAll(ReplaceAll(s, pat, [c]), [c], pat) == s
    decreases |s|
  {
    if |s| < |pat| {
      NoSingleOccurrence(s, c);
    } else if s[..|pat|] == pat {
      var t := s[|pat|..];
      assert c !in t;
      ReplaceRoundTrip(t, pat, c);
      var x := [c] + ReplaceAll(t, pat, [c]);
      assert x[..1] == [c];
      assert x[1..] == ReplaceAll(t, pat, [c]);
      assert s == s[..|pat|] + t;
    } else {
      var t := s[1..];
      assert c !in t;
      ReplaceRoundTrip(t, pat, c);
      var x := [s[0]] + ReplaceAll(t, pat, [c]);
      assert x[..1] != [c];
      assert x[1..] == ReplaceAll(t, pat, [c]);
      assert s == [s[0]] + t;
    }
  }

  /** A replacement inserted at the front is not scanned again, even when it
      contains the pattern itself. */
  lemma ReplaceSkipsInsertedText(pat: string, rep: string, rest: string)
    requires |pat| > 0
    ensures ReplaceAll(pat + rest, pat, rep) == rep + ReplaceAll(rest, pat, rep)
  {
    assert (pat + rest)[..|pat|] == pat;
    assert (pat + rest)[|pat|..] == rest;
  }

  // ---------------------------------------------------------------------------
  // String.Split(char) and string.Join

  /** `String.Split(c)` without options: the pieces between the occurrences of
      `c`, empty pieces included. */
  function Split(s: string, c: char): (r: seq<string>)
    ensures |r| > 0
    ensures forall k :: 0 <= k < |r| ==> c !in r[k]
    decreases |s|
  {
    var k := IndexOf(s, c);
    if k < 0 then [s]
    else
      var rest := Split(s[k + 1..], c);
      assert forall j :: 1 <= j < |rest| + 1 ==> ([s[..k]] + rest)[j] == rest[j - 1];
      [s[..k]] + rest
  }

  /** `string.Join(sep, xs)`. */
  function Join(xs: seq<string>, sep: string): string
  {
    if |xs| == 0 then []
    else if |xs| == 1 then xs[0]
    else xs[0] + sep + Join(xs[1..], sep)
  }

  /** Joining the pieces of a split with the split character gives the text back. */
  lemma {:induction false} JoinSplit(s: string, c: char)
    ensures Join(Split(s, c), [c]) == s
    decreases |s|
  {
    var k := IndexOf(s, c);
    if k >= 0 {
      var rest := Split(s[k + 1..], c);
      JoinSplit(s[k + 1..], c);
      SplitAtFirst(s, c, k);
      assert ([s[..k]] + rest)[1..] == rest;
      assert Join(Split(s, c), [c]) == s[..k] + [c] + Join(rest, [c]);
      assert s == s[..k] + [c] + s[k + 1..];
    }
  }

  lemma IndexOfAfter(a: string, c: char, b: string)
    requires c !in a
    ensures IndexOf(a + [c] + b, c) == |a|
  {
    var s := a + [c] + b;
    assert s[|a|] == c;
    var r := IndexOf(s, c);
    forall k | 0 <= k < r
      ensures s[k] != c
    {
      assert s[..r][k] == s[k];
    }
    forall k | 0 <= k < |a|
      ensures s[k] != c
    {
      assert s[k] == a[k];
    }
  }

  /** Splitting a join of separator-free pieces gives the pieces back. */
  lemma {:induction false} SplitJoin(xs: seq<string>, c: char)
    requires |xs| > 0
    requires forall k :: 0 <= k < |xs| ==> c !in xs[k]
    ensures Split(Join(xs, [c]), c) == xs
  {
    if |xs| == 1 {
      assert IndexOf(xs[0], c) == -1;
    } else {
      var tail := Join(xs[1..], [c]);
      var s := xs[0] + [c] + tail;
      assert Join(xs, [c]) == s;
      IndexOfAfter(xs[0], c, tail);
      assert s[..|xs[0]|] == xs[0];
      assert s[|xs[0]| + 1..] == tail;
      assert Split(s, c) == [xs[0]] + Split(tail, c);
      SplitJoin(xs[1..], c);
      assert xs == [xs[0]] + xs[1..];
    }
  }

  /** A character found in neither the pieces nor the separator is not in
      their join. */
  lemma {:induction false} JoinAbsent(xs: seq<string>, sep: string, c: char)
    requires c !in sep
    requires forall k :: 0 <= k < |xs| ==> c !in xs[k]
    ensures c !in Join(xs, sep)
    decreases |xs|
  {
    if |xs| > 1 {
      JoinAbsent(xs[1..], sep, c);
    }
  }

  /** Replacing a one-character pattern distributes over concatenation: no
      occurrence straddles the seam. */
  lemma {:induction false} ReplaceCharConcat(a: string, b: string, c: char, rep: string)
    ensures ReplaceAll(a + b, [c], rep) == ReplaceAll(a, [c], rep) + ReplaceAll(b, [c], rep)
    decreases |a|
  {
    if |a| > 0 {
      var ab := a + b;
      assert ab[..1] == [a[0]] && a[..1] == [a[0]];
      assert ab[1..] == a[1..] + b;
      ReplaceCharConcat(a[1..], b, c, rep);
      if a[0] == c {
        assert ReplaceAll(ab, [c], rep) == rep + ReplaceAll(ab[1..], [c], rep);
        assert ReplaceAll(a, [c], rep) == rep + ReplaceAll(a[1..], [c], rep);
      } else {
        assert ReplaceAll(ab, [c], rep) == [a[0]] + ReplaceAll(ab[1..], [c], rep);
        assert ReplaceAll(a, [c], rep) == [a[0]] + ReplaceAll(a[1..], [c], rep);
      }
    } else {
      assert a + b == b;
    }
  }

  /** Removing the separator from texts joined by it concatenates them. */
  lemma {:induction false} RemoveSeparator(xs: seq<string>, c: char)
    requires forall k :: 0 <= k < |xs| ==> c !in xs[k]
    ensures ReplaceAll(Join(xs, [c]), [c], []) == Join(xs, [])
    decreases |xs|
  {
    if |xs| == 1 {
      NoSingleOccurrence(xs[0], c);
    } else if |xs| > 1 {
      var rest := Join(xs[1..], [c]);
      RemoveSeparator(xs[1..], c);
      ReplaceCharConcat(xs[0] + [c], rest, c, []);
      ReplaceCharConcat(xs[0], [c], c, []);
      NoSingleOccurrence(xs[0], c);
      assert [c][..1] == [c];
      assert ReplaceAll([c], [c], []) == [];
    }
  }

  lemma IndexOfExtended(a: string, c: char, rest: string)
    requires c in a
    ensures IndexOf(a + rest, c) == IndexOf(a, c)
  {
    var s := a + rest;
    var k := IndexOf(a, c);
    var r := IndexOf(s, c);
    assert s[k] == c;
    forall j | 0 <= j < r
      ensures s[j] != c
    {
      assert s[..r][j] == s[j];
    }
    forall j | 0 <= j < k
      ensures s[j] != c
    {
      assert a[..k][j] == s[j];
    }
  }

  /** `Split` at the first separator, when there is one. */
  lemma SplitAtFirst(s: string, c: char, k: int)
    requires k == IndexOf(s, c) && k >= 0
    ensures Split(s, c) == [s[..k]] + Split(s[k + 1..], c)
  {
  }

  lemma ConcatAssoc<T>(x: seq<T>, y: seq<T>, z: seq<T>)
    ensures x + (y + z) == (x + y) + z
  {
  }

  lemma AbsentFromPrefix(s: string, d: char, k: nat)
    requires d !in s && k <= |s|
    ensures d !in s[..k]
  {
    forall j | 0 <= j < k
      ensures s[..k][j] != d
    {
      assert s[..k][j] == s[j];
    }
  }

  lemma AbsentFromSuffix(s: string, d: char, k: nat)
    requires d !in s && k <= |s|
    ensures d !in s[k..]
  {
    forall j | 0 <= j < |s| - k
      ensures s[k..][j] != d
    {
      assert s[k..][j] == s[k + j];
    }
  }

  /** A character absent from the text is absent from every piece. */
  lemma {:induction false} SplitPiecesOf(s: string, c: char, d: char, i: nat)
    requires d !in s && i < |Split(s, c)|
    ensures d !in Split(s, c)[i]
    decreases |s|
  {
    var k := IndexOf(s, c);
    if k >= 0 {
      SplitAtFirst(s, c, k);
      if i == 0 {
        AbsentFromPrefix(s, d, k);
      } else {
        AbsentFromSuffix(s, d, k + 1);
        SplitPiecesOf(s[k + 1..], c, d, i - 1);
      }
    }
  }

  /** A text without the separator is one piece. */
  lemma SplitNone(s: string, c: char)
    requires c !in s
    ensures Split(s, c) == [s]
  {
    assert IndexOf(s, c) < 0;
  }

  /** Without a separator in `a`, the first piece of `a + [c] + b` is `a`. */
  lemma SplitAroundPlain(a: string, c: char, b: string)
    requires c !in a
    ensures Split(a + [c] + b, c) == [a] + Split(b, c)
  {
    var s := a + [c] + b;
    IndexOfAfter(a, c, b);
    SplitAtFirst(s, c, |a|);
    assert s[..|a|] == a;
    assert s[|a| + 1..] == b;
  }

  /** With a separator in `a`, the split of `a + [c] + b` starts like that of `a`. */
  lemma SplitAroundStep(a: string, c: char, b: string, k: int)
    requires k == IndexOf(a, c) && k >= 0
    ensures Split(a + [c] + b, c) == [a[..k]] + Split(a[k + 1..] + [c] + b, c)
  {
    var s := a + [c] + b;
    IndexOfExtended(a, c, [c] + b);
    assert s == a + ([c] + b);
    SplitAtFirst(s, c, k);
    assert s[..k] == a[..k];
    assert s[k + 1..] == a[k + 1..] + [c] + b;
  }

  /** A separator splits the text into the pieces on either side. */
  lemma {:induction false} SplitAround(a: string, c: char, b: string)
    ensures Split(a + [c] + b, c) == Split(a, c) + Split(b, c)
    decreases |a|
  {
    var k := IndexOf(a, c);
    if k < 0 {
      SplitAroundPlain(a, c, b);
    } else {
      var tail := a[k + 1..];
      SplitAroundStep(a, c, b, k);
      SplitAtFirst(a, c, k);
      SplitAround(tail, c, b);
      ConcatAssoc([a[..k]], Split(tail, c), Split(b, c));
    }
  }

  // ---------------------------------------------------------------------------
  // Enumerable.Distinct

  predicate NoDuplicates<T(==)>(xs: seq<T>) {
    forall i, j :: 0 <= i < j < |xs| ==> xs[i] != xs[j]
  }

  /** A text that differs from `prefix` at some position does not start with it. */
  lemma DiffersAt(s: string, prefix: string, k: nat)
    requires k < |prefix| && k < |s| && s[k] != prefix[k]
    ensures !StartsWith(s, prefix)
  {
    if |prefix| <= |s| {
      assert s[..|prefix|][k] == s[k];
    }
  }

  /** Position of the first occurrence of `x` in `xs`. */
  function FirstIndex<T(==)>(xs: seq<T>, x: T): (r: nat)
    requires x in xs
    ensures r < |xs| && xs[r] == x && x !in xs[..r]
  {
    if xs[0] == x then 0
    else
      var k := FirstIndex(xs[1..], x);
      assert xs[..k + 1] == [xs[0]] + xs[1..][..k];
      k + 1
  }

  /** `Enumerable.Distinct`: each element once, at its first occurrence. */
  function Distinct<T(==)>(xs: seq<T>): (r: seq<T>)
    ensures forall i :: 0 <= i < |xs| ==> xs[i] in r
    ensures forall i :: 0 <= i < |r| ==> r[i] in xs
    ensures NoDuplicates(r)
  {
    if |xs| == 0 then []
    else
      var d := Distinct(xs[..|xs| - 1]);
      assert xs == xs[..|xs| - 1] + [xs[|xs| - 1]];
      if xs[|xs| - 1] in d then d else d + [xs[|xs| - 1]]
  }

  lemma FirstIndexPrefix<T>(xs: seq<T>, n: nat, x: T)
    requires n <= |xs| && x in xs[..n]
    ensures FirstIndex(xs, x) == FirstIndex(xs[..n], x)
  {
    var i := FirstIndex(xs, x);
    var j := FirstIndex(xs[..n], x);
    assert xs[j] == x;
    forall k | 0 <= k < i
      ensures xs[k] != x
    {
      assert xs[..i][k] == xs[k];
    }
    forall k | 0 <= k < j
      ensures xs[k] != x
    {
      assert xs[..n][..j][k] == xs[k];
    }
  }

  /** `Distinct` keeps the order of first occurrences. */
  lemma {:induction false} DistinctKeepsFirstOrder<T>(xs: seq<T>)
    ensures forall i, j :: 0 <= i < j < |Distinct(xs)| ==>
      FirstIndex(xs, Distinct(xs)[i]) < FirstIndex(xs, Distinct(xs)[j])
  {
    if |xs| > 0 {
      var n := |xs| - 1;
      var p := xs[..n];
      var d := Distinct(p);
      var r := Distinct(xs);
      DistinctKeepsFirstOrder(p);
      var last := xs[n];
      if last !in d {
        assert last !in p;
        assert FirstIndex(xs, last) == n by {
          forall k | 0 <= k < n
            ensures xs[k] != last
          {
            assert p[k] == xs[k];
          }
        }
        assert r == d + [last];
      } else {
        assert r == d;
      }
      forall i, j | 0 <= i < j < |r|
        ensures FirstIndex(xs, r[i]) < FirstIndex(xs, r[j])
      {
        assert r[i] == d[i];
        FirstIndexPrefix(xs, n, d[i]);
        if j < |d| {
          assert r[j] == d[j];
          FirstIndexPrefix(xs, n, d[j]);
        }
      }
    }
  }

  /** A list without duplicates is its own `Distinct`. */
  lemma {:induction false} DistinctOfDistinct<T>(xs: seq<T>)
    requires NoDuplicates(xs)
    ensures Distinct(xs) == xs
  {
    if |xs| > 0 {
      var n := |xs| - 1;
      DistinctOfDistinct(xs[..n]);
      assert xs[n] !in xs[..n];
      assert xs == xs[..n] + [xs[n]];
    }
  }

  // ---------------------------------------------------------------------------
  // Decimal formatting of counters

  predicate IsDigit(c: char) {
    '0' <= c <= '9'
  }

  predicate AllDigits(s: string) {
    forall k :: 0 <= k < |s| ==> IsDigit(s[k])
  }

  function DigitChar(d: nat): (c: char)
    requires d < 10
    ensures IsDigit(c) && c as int - '0' as int == d
  {
    (d + '0' as int) as char
  }

  /** `int.ToString()` for a non-negative value. */
  function NatToString(n: nat): (r: string)
    ensures |r| > 0 && AllDigits(r)
    decreases n
  {
    if n < 10 then [DigitChar(n)] else NatToString(n / 10) + [DigitChar(n % 10)]
  }

  /** Decimal value of a digit string. */
  function ParseNat(s: string): nat
    requires AllDigits(s)
  {
    if |s| == 0 then 0 else 10 * ParseNat(s[..|s| - 1]) + (s[|s| - 1] as int - '0' as int)
  }

  /** Reading a formatted counter back gives the counter. */
  lemma {:induction false} ParseNatToString(n: nat)
    ensures ParseNat(NatToString(n)) == n
    decreases n
  {
    if n >= 10 {
      ParseNatToString(n / 10);
      var s := NatToString(n);
      assert s[..|s| - 1] == NatToString(n / 10);
    }
  }
}
