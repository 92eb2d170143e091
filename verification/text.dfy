/**
 * The .NET string operations the pipeline relies on, with ordinal (char by char)
 * semantics: `IndexOf`, `Split`, `Trim`, `Last`, `StartsWith` and
 * `Equals(..., StringComparison.OrdinalIgnoreCase)`. A char here is a Unicode
 * scalar value where .NET counts UTF-16 code units, so lengths and positions
 * differ for characters outside the BMP.
 */
module Text {
  import Seqs

  /** String.IndexOf(char): the index of the first `c` in `s`, or -1 when there is none. */
  function IndexOf(s: string, c: char): (r: int)
    ensures -1 <= r < |s|
    ensures r == -1 <==> Lacks(s, c)
    ensures 0 <= r ==> s[r] == c
    ensures forall i :: 0 <= i < r ==> s[i] != c
  {
    IndexFrom(s, c, 0)
  }

  /** The index of the first `c` in `s` at or after `from`, or -1. */
  function IndexFrom(s: string, c: char, from: nat): (r: int)
    requires from <= |s|
    ensures r == -1 || from <= r < |s|
    ensures r == -1 <==> forall i :: from <= i < |s| ==> s[i] != c
    ensures 0 <= r ==> s[r] == c
    ensures forall i :: from <= i < r ==> s[i] != c
    decreases |s| - from
  {
    if from == |s| then -1
    else if s[from] == c then from
    else IndexFrom(s, c, from + 1)
  }

  /** No char of `s` is `c`. */
  predicate Lacks(s: string, c: char)
  {
    forall i :: 0 <= i < |s| ==> s[i] != c
  }

  /** Text made of two texts without `c` has no `c`. */
  lemma LacksAppend(s: string, t: string, c: char)
    requires Lacks(s, c) && Lacks(t, c)
    ensures Lacks(s + t, c)
  {
    forall i | 0 <= i < |s + t| ensures (s + t)[i] != c {
      if i >= |s| { assert (s + t)[i] == t[i - |s|]; }
    }
  }

  /** `pat` occurs in `s` starting at index `i`. */
  predicate OccursAt(s: string, pat: string, i: int)
  {
    0 <= i && i + |pat| <= |s| && s[i..i + |pat|] == pat
  }

  /** String.IndexOf(string): the index of the first occurrence of `pat` in `s`, or -1. */
  function IndexOfText(s: string, pat: string): (r: int)
    ensures -1 <= r <= |s|
    ensures 0 <= r ==> OccursAt(s, pat, r)
    ensures forall j :: 0 <= j < r || (r == -1 && 0 <= j <= |s|) ==> !OccursAt(s, pat, j)
    decreases |s|
  {
    if |pat| > |s| then -1
    else if s[..|pat|] == pat then 0
    else
      var k := IndexOfText(s[1..], pat);
      assert forall j :: 1 <= j <= |s| ==> (OccursAt(s, pat, j) <==> OccursAt(s[1..], pat, j - 1)) by {
        forall j | 1 <= j <= |s| {
          OccursShift(s, pat, j);
        }
      }
      if k == -1 then -1 else k + 1
  }

  /** An occurrence at `j` in `s` is one at `j - 1` in `s` without its first char. */
  lemma OccursShift(s: string, pat: string, j: int)
    requires 1 <= j <= |s|
    ensures OccursAt(s, pat, j) <==> OccursAt(s[1..], pat, j - 1)
  {
    if j + |pat| <= |s| {
      var a, b := s[j..j + |pat|], s[1..][j - 1..j - 1 + |pat|];
      assert forall i :: 0 <= i < |pat| ==> a[i] == b[i];
      assert a == b;
    }
  }

  /** IndexOf's contract determines its result. */
  lemma IndexOfUnique(s: string, c: char, j: int)
    requires 0 <= j < |s| && s[j] == c
    requires forall i :: 0 <= i < j ==> s[i] != c
    ensures IndexOf(s, c) == j
  {
  }

  /** Where the last piece of `s` starts: just after its last `c`, or 0 when there is none. */
  function LastStart(s: string, c: char): (k: nat)
    ensures k <= |s|
    ensures k == 0 || s[k - 1] == c
    ensures forall i :: k <= i < |s| ==> s[i] != c
  {
    StartBefore(s, c, |s|)
  }

  /** Just after the last `c` among the first `n` chars of `s`, or 0 when there is none. */
  function StartBefore(s: string, c: char, n: nat): (k: nat)
    requires n <= |s|
    ensures k <= n
    ensures k == 0 || s[k - 1] == c
    ensures forall i :: k <= i < n ==> s[i] != c
  {
    if n == 0 then 0
    else if s[n - 1] == c then n
    else StartBefore(s, c, n - 1)
  }

  /** LastStart's contract determines its result. */
  lemma LastStartUnique(s: string, c: char, k: int)
    requires 0 <= k <= |s| && (k == 0 || s[k - 1] == c)
    requires forall i :: k <= i < |s| ==> s[i] != c
    ensures LastStart(s, c) == k
  {
  }

  /**
   * String.Split(char): the maximal `c`-free pieces of `s`, in order, empty
   * pieces included, so that `s` with n occurrences of `c` gives n + 1 pieces.
   */
  function Split(s: string, c: char): (r: seq<string>)
    ensures |r| >= 1
    decreases |s|
  {
    var k := LastStart(s, c);
    if k == 0 then [s] else Split(s[..k - 1], c) + [s[k..]]
  }

  /** The pieces of `parts` glued back together with `c` between consecutive pieces. */
  function Join(parts: seq<string>, c: char): string
  {
    if parts == [] then ""
    else if |parts| == 1 then parts[0]
    else Join(parts[..|parts| - 1], c) + [c] + parts[|parts| - 1]
  }

  /** No piece of a split contains the separator. */
  lemma {:induction false} SplitPiecesLack(s: string, c: char)
    ensures forall i :: 0 <= i < |Split(s, c)| ==> Lacks(Split(s, c)[i], c)
    decreases |s|
  {
    var k := LastStart(s, c);
    if k > 0 {
      SplitPiecesLack(s[..k - 1], c);
      assert forall i :: 0 <= i < |s| - k ==> s[k..][i] == s[k + i];
    }
  }

  /** Text is what comes before an index, the char there, and what comes after. */
  lemma AroundIndex(s: string, k: int)
    requires 0 <= k < |s|
    ensures s == s[..k] + [s[k]] + s[k + 1..]
  {
    assert s[..k] + [s[k]] + s[k + 1..] == s[..k] + s[k..];
  }

  /** Joining one more piece at the end puts `c` before it. */
  lemma JoinSnoc(parts: seq<string>, w: string, c: char)
    requires |parts| >= 1
    ensures Join(parts + [w], c) == Join(parts, c) + [c] + w
  {
    assert (parts + [w])[..|parts|] == parts;
  }

  /** Gluing the pieces of a split back together gives the original text. */
  lemma {:induction false} JoinSplit(s: string, c: char)
    ensures Join(Split(s, c), c) == s
    decreases |s|
  {
    var k := LastStart(s, c);
    if k > 0 {
      JoinSplit(s[..k - 1], c);
      JoinSnoc(Split(s[..k - 1], c), s[k..], c);
      AroundIndex(s, k - 1);
    }
  }

  /** Text ending in `c` and a `c`-free word splits into the split of the text, then the word. */
  lemma SplitSnoc(j: string, w: string, c: char)
    requires Lacks(w, c)
    ensures Split(j + [c] + w, c) == Split(j, c) + [w]
  {
    var s := j + [c] + w;
    assert s[|j|] == c;
    assert forall i :: |j| + 1 <= i < |s| ==> s[i] == w[i - |j| - 1];
    LastStartUnique(s, c, |j| + 1);
    assert s[..|j|] == j;
    assert s[|j| + 1..] == w;
  }

  /** Splitting text glued from `c`-free pieces gives those pieces back. */
  lemma {:induction false} SplitJoin(parts: seq<string>, c: char)
    requires |parts| >= 1
    requires forall i :: 0 <= i < |parts| ==> Lacks(parts[i], c)
    ensures Split(Join(parts, c), c) == parts
  {
    if |parts| == 1 {
      LastStartUnique(parts[0], c, 0);
    } else {
      var init, w := parts[..|parts| - 1], parts[|parts| - 1];
      SplitSnoc(Join(init, c), w, c);
      SplitJoin(init, c);
      assert parts == init + [w];
    }
  }

  /** The first piece of a split is the text before the first `c`, or all of it. */
  lemma {:induction false} SplitHead(s: string, c: char)
    ensures Split(s, c)[0] == if IndexOf(s, c) == -1 then s else s[..IndexOf(s, c)]
    decreases |s|
  {
    var k := LastStart(s, c);
    if k > 0 {
      var init := s[..k - 1];
      SplitHead(init, c);
      assert Split(s, c)[0] == Split(init, c)[0];
      var j := IndexOf(init, c);
      if j == -1 {
        IndexOfUnique(s, c, k - 1);
      } else {
        IndexOfUnique(s, c, j);
        assert init[..j] == s[..j];
      }
    }
  }

  /** Joining a first piece in front puts `c` after it. */
  lemma {:induction false} JoinCons(w: string, parts: seq<string>, c: char)
    requires |parts| >= 1
    ensures Join([w] + parts, c) == w + [c] + Join(parts, c)
    decreases |parts|
  {
    if |parts| == 1 {
      assert ([w] + parts)[..1] == [w];
    } else {
      var init, last := parts[..|parts| - 1], parts[|parts| - 1];
      JoinCons(w, init, c);
      assert ([w] + parts)[..|parts|] == [w] + init;
      Seqs.AppendAssoc(w + [c], Join(init, c), [c] + last);
    }
  }

  /** Text whose first `c` is at `q` splits into the text before `q`, then the split of the rest. */
  lemma SplitCons(s: string, c: char, q: int)
    requires 0 <= q < |s| && s[q] == c && Lacks(s[..q], c)
    ensures Split(s, c) == [s[..q]] + Split(s[q + 1..], c)
  {
    var rest := Split(s[q + 1..], c);
    var parts := [s[..q]] + rest;
    JoinSplit(s[q + 1..], c);
    JoinCons(s[..q], rest, c);
    AroundIndex(s, q);
    SplitPiecesLack(s[q + 1..], c);
    assert forall i :: 1 <= i < |parts| ==> parts[i] == rest[i - 1];
    SplitJoin(parts, c);
  }

  /**
   * Text holding `c` splits into at least two pieces: the text before the first
   * `c`, then the text from there up to the next `c` or the end.
   */
  lemma SplitSecond(s: string, c: char)
    requires !Lacks(s, c)
    ensures var q := IndexOf(s, c);
            var rest := s[q + 1..];
            var parts := Split(s, c);
            && |parts| >= 2
            && parts[0] == s[..q]
            && parts[1] == if IndexOf(rest, c) == -1 then rest else rest[..IndexOf(rest, c)]
  {
    var q := IndexOf(s, c);
    assert Lacks(s[..q], c);
    SplitCons(s, c, q);
    SplitHead(s[q + 1..], c);
  }

  /** `Split(c).Last()`: the text after the last `c`, or all of `s` when there is none. */
  function LastPiece(s: string, c: char): string
  {
    var parts := Split(s, c);
    parts[|parts| - 1]
  }

  /** The last piece is the suffix after the last `c`, and free of `c`. */
  lemma LastPieceSuffix(s: string, c: char)
    ensures LastPiece(s, c) == s[LastStart(s, c)..]
    ensures Lacks(LastPiece(s, c), c)
  {
    var k := LastStart(s, c);
    assert forall i :: 0 <= i < |s| - k ==> s[k..][i] == s[k + i];
  }

  /** Dropping a prefix that ends at or before the last piece leaves the last piece unchanged. */
  lemma LastPieceOfSuffix(s: string, c: char, k: int)
    requires 0 <= k <= LastStart(s, c)
    ensures LastPiece(s[k..], c) == LastPiece(s, c)
  {
    var t := s[k..];
    var m := LastStart(s, c) - k;
    assert m == 0 || t[m - 1] == s[k + m - 1];
    assert forall i :: m <= i < |t| ==> t[i] == s[k + i];
    LastStartUnique(t, c, m);
    LastPieceSuffix(t, c);
    LastPieceSuffix(s, c);
    assert t[m..] == s[k + m..];
  }

  /** A text ending in a separator followed by a `c`-free word has that word as its last piece. */
  lemma LastPieceAfterSeparator(pre: string, word: string, c: char)
    requires Lacks(word, c)
    ensures LastPiece(pre + [c] + word, c) == word
  {
    SplitSnoc(pre, word, c);
  }

  /** Char.IsWhiteSpace: the Unicode white-space characters recognised by .NET. */
  predicate IsWhiteSpace(ch: char)
  {
    ch == ' ' || ('\t' <= ch <= '\r') || ch == '\U{85}' || ch == '\U{A0}' || ch == '\U{1680}'
    || ('\U{2000}' <= ch <= '\U{200A}') || ch == '\U{2028}' || ch == '\U{2029}'
    || ch == '\U{202F}' || ch == '\U{205F}' || ch == '\U{3000}'
  }

  /** String.TrimStart(): `s` without its leading white space. */
  function TrimStart(s: string): (r: string)
    ensures |r| <= |s|
    ensures forall i :: 0 <= i < |s| - |r| ==> IsWhiteSpace(s[i])
  {
    if s != [] && IsWhiteSpace(s[0]) then TrimStart(s[1..]) else s
  }

  /** What TrimStart keeps is the suffix of `s` from its first non-white-space char. */
  lemma {:induction false} TrimStartSuffix(s: string)
    ensures var r := TrimStart(s);
            r == s[|s| - |r|..] && (r == [] || !IsWhiteSpace(r[0]))
  {
    if s != [] && IsWhiteSpace(s[0]) {
      TrimStartSuffix(s[1..]);
    }
  }

  /** String.TrimEnd(): `s` without its trailing white space. */
  function TrimEnd(s: string): (r: string)
    ensures |r| <= |s|
    ensures forall i :: |r| <= i < |s| ==> IsWhiteSpace(s[i])
  {
    if s != [] && IsWhiteSpace(s[|s| - 1]) then TrimEnd(s[..|s| - 1]) else s
  }

  /** What TrimEnd keeps is the prefix of `s` up to its last non-white-space char. */
  lemma {:induction false} TrimEndPrefix(s: string)
    ensures var r := TrimEnd(s);
            r == s[..|r|] && (r == [] || !IsWhiteSpace(r[|r| - 1]))
  {
    if s != [] && IsWhiteSpace(s[|s| - 1]) {
      TrimEndPrefix(s[..|s| - 1]);
    }
  }

  /** String.Trim(): `s` without leading and trailing white space. */
  function Trim(s: string): string
  {
    TrimStart(TrimEnd(s))
  }

  /**
   * String.Trim() keeps one slice of `s`: everything before and after it is
   * white space, and the slice neither starts nor ends with white space.
   */
  lemma TrimSlice(s: string)
    ensures var r := Trim(s);
            var j := |TrimEnd(s)|;
            var i := j - |r|;
            && 0 <= i <= j <= |s| && r == s[i..j]
            && (forall k :: 0 <= k < i || j <= k < |s| ==> IsWhiteSpace(s[k]))
            && (r == [] || (!IsWhiteSpace(r[0]) && !IsWhiteSpace(r[|r| - 1])))
  {
    var t := TrimEnd(s);
    TrimEndPrefix(s);
    TrimStartSuffix(t);
    var r := Trim(s);
    var i := |t| - |r|;
    assert r == t[i..];
    assert forall k :: 0 <= k < i ==> s[k] == t[k];
    if r != [] {
      assert r[|r| - 1] == t[|t| - 1];
    }
  }

  /** String.StartsWith, compared char by char. */
  predicate StartsWith(s: string, prefix: string)
  {
    |prefix| <= |s| && s[..|prefix|] == prefix
  }

  /** Text starts with `prefix` exactly when it is `prefix` followed by more text. */
  lemma StartsWithAppend(s: string, prefix: string)
    ensures StartsWith(s, prefix) <==> |prefix| <= |s| && s == prefix + s[|prefix|..]
    ensures forall rest :: StartsWith(prefix + rest, prefix)
  {
    if |prefix| <= |s| && s == prefix + s[|prefix|..] {
      assert s[..|prefix|] == prefix;
    }
    forall rest ensures StartsWith(prefix + rest, prefix) {
      assert (prefix + rest)[..|prefix|] == prefix;
    }
  }

  /** The upper-case form of an ASCII letter; any other char is unchanged. */
  function ToUpper(ch: char): (r: char)
    ensures 'a' <= ch <= 'z' ==> r as int == ch as int - 32
    ensures !('a' <= ch <= 'z') ==> r == ch
  {
    if 'a' <= ch <= 'z' then (ch as int - 32) as char else ch
  }

  /** Two chars are the same letter ignoring case: equal, or the two cases of one ASCII letter. */
  predicate SameLetter(a: char, b: char)
  {
    || a == b
    || ('a' <= a <= 'z' && b as int == a as int - 32)
    || ('a' <= b <= 'z' && a as int == b as int - 32)
  }

  /** Upper-casing makes two chars equal exactly when they are the same letter ignoring case. */
  lemma ToUpperMatches(a: char, b: char)
    ensures ToUpper(a) == ToUpper(b) <==> SameLetter(a, b)
  {
  }

  /** String.Equals(a, b, StringComparison.OrdinalIgnoreCase) on ASCII letters. */
  predicate EqualsIgnoreCase(a: string, b: string)
  {
    |a| == |b| && forall i :: 0 <= i < |a| ==> ToUpper(a[i]) == ToUpper(b[i])
  }

  /** Texts are equal ignoring case exactly when they match char by char as the same letters. */
  lemma EqualsIgnoreCaseLetters(a: string, b: string)
    ensures EqualsIgnoreCase(a, b) <==> |a| == |b| && forall i :: 0 <= i < |a| ==> SameLetter(a[i], b[i])
  {
    forall i | 0 <= i < |a| && i < |b| {
      ToUpperMatches(a[i], b[i]);
    }
  }

  /** Equality ignoring case is an equivalence: reflexive, symmetric and transitive. */
  lemma EqualsIgnoreCaseEquivalence(a: string, b: string, c: string)
    ensures EqualsIgnoreCase(a, a)
    ensures EqualsIgnoreCase(a, b) ==> EqualsIgnoreCase(b, a)
    ensures EqualsIgnoreCase(a, b) && EqualsIgnoreCase(b, c) ==> EqualsIgnoreCase(a, c)
  {
  }
}
