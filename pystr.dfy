/**
 * The Python string and list operations the ingestion code relies on,
 * written out with Python's own semantics: negative and clamped slice
 * bounds, `str.split(sep)`, whitespace `str.split()`, `strip` with a
 * character set, left-to-right `str.replace`, `str.find`, substring `in`
 * and `int()` of a decimal literal.  Strings are decoded text (`seq<char>`).
 */
module PyStr {
  import opened Wrappers

  /** The characters `str.split()` and `str.strip()` treat as whitespace. */
  const Whitespace: set<char> := {' ', '\t', '\n', '\r', '\U{000B}', '\U{000C}'}

  // ---------------------------------------------------------------------
  // Slicing

  /** Python's normalisation of one slice bound against a length. */
  function Clamp(k: int, n: nat): (r: nat)
    ensures r <= n
    ensures 0 <= k <= n ==> r == k
    ensures k < 0 && k + n >= 0 ==> r == n + k
  {
    if k < 0 then (if k + n < 0 then 0 else k + n)
    else if k > n then n
    else k
  }

  /** `s[i:j]` with Python's bounds: negative counts from the end, out of range clamps. */
  function Slice<T>(s: seq<T>, i: int, j: int): seq<T>
  {
    var a, b := Clamp(i, |s|), Clamp(j, |s|);
    if a <= b then s[a..b] else []
  }

  lemma SliceInRange<T>(s: seq<T>, i: nat, j: nat)
    requires i <= j <= |s|
    ensures Slice(s, i, j) == s[i..j]
  {
  }

  /** `s[:-k]` keeps all but the last k elements and `s[-k:]` the last k; together they are `s`. */
  lemma SliceFromEnd<T>(s: seq<T>, k: nat)
    requires k > 0
    ensures Slice(s, 0, -(k as int)) + Slice(s, -(k as int), |s|) == s
    ensures |Slice(s, -(k as int), |s|)| == if k <= |s| then k else |s|
    ensures Slice(s, -(k as int), |s|) == s[|s| - |Slice(s, -(k as int), |s|)|..]
  {
  }

  // ---------------------------------------------------------------------
  // Prefixes, search and containment

  predicate StartsWith(s: string, p: string)
  {
    |p| <= |s| && s[..|p|] == p
  }

  /** The index of the first `c` in `s`, if any. */
  function IndexOf(s: string, c: char): (r: Option<nat>)
    ensures r.None? <==> c !in s
    ensures r.Some? ==> r.value < |s| && s[r.value] == c && c !in s[..r.value]
  {
    if s == [] then None
    else if s[0] == c then Some(0)
    else
      match IndexOf(s[1..], c)
      case None => None
      case Some(i) =>
        assert s[..i + 1] == [s[0]] + s[1..][..i];
        Some(i + 1)
  }

  /** `s.find(c)`: the first index of `c`, or -1. */
  function Find(s: string, c: char): (r: int)
    ensures -1 <= r < |s|
    ensures r == -1 <==> c !in s
    ensures r >= 0 ==> s[r] == c && c !in s[..r]
  {
    match IndexOf(s, c)
    case None => -1
    case Some(i) => i
  }

  /** Substring containment, `sub in s`. */
  predicate Contains(s: string, sub: string)
    decreases |s|
  {
    StartsWith(s, sub) || (s != [] && Contains(s[1..], sub))
  }

  /** `sub` occurs in `s` starting at index `i`. */
  predicate OccursAt(s: string, sub: string, i: nat)
  {
    i + |sub| <= |s| && s[i..i + |sub|] == sub
  }

  /** `Contains` holds exactly when the substring occurs at some index. */
  lemma {:induction false} ContainsAt(s: string, sub: string)
    ensures Contains(s, sub) <==> exists i: nat :: OccursAt(s, sub, i)
    decreases |s|
  {
    if StartsWith(s, sub) {
      assert OccursAt(s, sub, 0);
    } else if s == [] {
    } else {
      ContainsAt(s[1..], sub);
      if Contains(s[1..], sub) {
        var i: nat :| OccursAt(s[1..], sub, i);
        assert s[i + 1..i + 1 + |sub|] == s[1..][i..i + |sub|];
        assert OccursAt(s, sub, i + 1);
      }
      if exists i: nat :: OccursAt(s, sub, i) {
        var i: nat :| OccursAt(s, sub, i);
        if i > 0 {
          assert s[1..][i - 1..i - 1 + |sub|] == s[i..i + |sub|];
          assert OccursAt(s[1..], sub, i - 1);
        }
      }
    }
  }

  // ---------------------------------------------------------------------
  // Stripping

  /** `s.rstrip(cs)`: drops trailing characters that are in `cs`. */
  function RStrip(s: string, cs: set<char>): (r: string)
    ensures |r| <= |s|
    ensures r == s[..|r|]
    ensures r == [] || r[|r| - 1] !in cs
    ensures forall i :: |r| <= i < |s| ==> s[i] in cs
  {
    if s != [] && s[|s| - 1] in cs then
      var r := RStrip(s[..|s| - 1], cs);
      assert s[..|s| - 1][..|r|] == s[..|r|];
      r
    else s
  }

  /** `s.lstrip(cs)`: drops leading characters that are in `cs`. */
  function LStrip(s: string, cs: set<char>): (r: string)
    ensures |r| <= |s|
    ensures r == [] || r[0] !in cs
    ensures forall i :: 0 <= i < |s| - |r| ==> s[i] in cs
  {
    if s != [] && s[0] in cs then LStrip(s[1..], cs) else s
  }

  /** What `lstrip` keeps is a suffix of its input. */
  lemma {:induction false} LStripSuffix(s: string, cs: set<char>)
    ensures LStrip(s, cs) == s[|s| - |LStrip(s, cs)|..]
    decreases |s|
  {
    if s != [] && s[0] in cs {
      LStripSuffix(s[1..], cs);
    }
  }

  /** `s.strip(cs)`: drops characters in `cs` at both ends. */
  function StripChars(s: string, cs: set<char>): (r: string)
  {
    LStrip(RStrip(s, cs), cs)
  }

  /** `s.strip()`. */
  function Strip(s: string): string
  {
    StripChars(s, Whitespace)
  }

  /** What `strip` keeps is a contiguous piece of the text whose ends are not stripped characters. */
  lemma StripCharsSpec(s: string, cs: set<char>)
    ensures exists i: nat :: OccursAt(s, StripChars(s, cs), i)
    ensures var r := StripChars(s, cs); r == [] || (r[0] !in cs && r[|r| - 1] !in cs)
    ensures (s == [] || (s[0] !in cs && s[|s| - 1] !in cs)) ==> StripChars(s, cs) == s
  {
    var t := RStrip(s, cs);
    var r := LStrip(t, cs);
    var i: nat := |t| - |r|;
    assert StripChars(s, cs) == r;
    assert t == s[..|t|];
    LStripSuffix(t, cs);
    assert r == t[i..];
    assert t[i..] == s[i..|t|];
    assert r == s[i..i + |r|];
    assert OccursAt(s, r, i);
  }

  // ---------------------------------------------------------------------
  // Splitting and joining

  /** `sep.join(parts)`. */
  function Join(parts: seq<string>, sep: string): string
  {
    if |parts| == 0 then []
    else if |parts| == 1 then parts[0]
    else parts[0] + sep + Join(parts[1..], sep)
  }

  /** `s.split(c)`: the pieces between occurrences of `c`; rejoining them gives `s` back. */
  function Split(s: string, c: char): (parts: seq<string>)
    ensures |parts| >= 1
    ensures forall k :: 0 <= k < |parts| ==> c !in parts[k]
    ensures Join(parts, [c]) == s
    ensures c in s ==> |parts| >= 2
    decreases |s|
  {
    match IndexOf(s, c)
    case None => [s]
    case Some(i) =>
      var rest := Split(s[i + 1..], c);
      var parts := [s[..i]] + rest;
      assert parts[1..] == rest;
      assert s == s[..i] + [c] + s[i + 1..];
      parts
  }

  lemma IndexOfJoin(a: string, c: char, b: string)
    requires c !in a
    ensures IndexOf(a + [c] + b, c) == Some(|a|)
  {
    var s := a + [c] + b;
    assert s[..|a|] == a;
    assert s[|a|] == c;
  }

  /** Splitting pieces that do not contain the separator, once joined, gives the pieces back. */
  lemma {:induction false} SplitJoin(parts: seq<string>, c: char)
    requires |parts| >= 1
    requires forall k :: 0 <= k < |parts| ==> c !in parts[k]
    ensures Split(Join(parts, [c]), c) == parts
    decreases |parts|
  {
    if |parts| > 1 {
      var rest := Join(parts[1..], [c]);
      var s := parts[0] + [c] + rest;
      assert Join(parts, [c]) == s;
      IndexOfJoin(parts[0], c, rest);
      assert s[..|parts[0]|] == parts[0];
      assert s[|parts[0]| + 1..] == rest;
      SplitJoin(parts[1..], c);
      assert parts == [parts[0]] + parts[1..];
    } else {
      assert IndexOf(parts[0], c) == None;
    }
  }

  /** The first piece of `s.split(c)` is the text before the first `c`, the second the text after it up to the next `c`. */
  lemma {:induction false} SplitPieces(s: string, c: char, i: nat)
    requires i < |s| && s[i] == c && c !in s[..i]
    ensures |Split(s, c)| >= 2
    ensures Split(s, c)[0] == s[..i]
    ensures Split(s, c)[1] == Split(s[i + 1..], c)[0]
  {
    assert IndexOf(s, c) == Some(i);
  }

  /** The first piece of `s.split(c)` when `s` holds no `c` is `s` itself. */
  lemma SplitWithout(s: string, c: char)
    requires c !in s
    ensures Split(s, c) == [s]
  {
  }

  /** The leading run of non-whitespace characters. */
  function Word(s: string): (w: string)
    ensures |w| <= |s|
    ensures w == s[..|w|]
    ensures forall k :: 0 <= k < |w| ==> w[k] !in Whitespace
    ensures |w| == |s| || s[|w|] in Whitespace
  {
    if s == [] || s[0] in Whitespace then []
    else
      var w := Word(s[1..]);
      assert [s[0]] + w == s[..|w| + 1];
      [s[0]] + w
  }

  /** The characters of `s` that are not whitespace, in order. */
  function NonBlank(s: string): string
    decreases |s|
  {
    if s == [] then [] else (if s[0] in Whitespace then [] else [s[0]]) + NonBlank(s[1..])
  }

  /** The pieces one after another. */
  function Concat(ws: seq<string>): string
    decreases |ws|
  {
    if ws == [] then [] else ws[0] + Concat(ws[1..])
  }

  lemma {:induction false} NonBlankSplit(s: string, k: nat)
    requires k <= |s|
    ensures NonBlank(s) == NonBlank(s[..k]) + NonBlank(s[k..])
    decreases k
  {
    if k == 0 {
      assert s[..0] == [] && s[0..] == s;
    } else {
      NonBlankSplit(s[1..], k - 1);
      assert s[..k][1..] == s[1..][..k - 1];
      assert s[1..][k - 1..] == s[k..];
    }
  }

  lemma {:induction false} NonBlankClean(w: string)
    requires forall j :: 0 <= j < |w| ==> w[j] !in Whitespace
    ensures NonBlank(w) == w
    decreases |w|
  {
    if w != [] {
      NonBlankClean(w[1..]);
      assert w == [w[0]] + w[1..];
    }
  }

  /**
   * `s.split()`: the maximal runs of non-whitespace characters, in order.
   * It loses only the whitespace: the pieces, put back together, are the
   * non-whitespace characters of `s`, and there are none exactly when `s`
   * is all whitespace.
   */
  function Words(s: string): (ws: seq<string>)
    ensures forall k :: 0 <= k < |ws| ==> ws[k] != [] && forall j :: 0 <= j < |ws[k]| ==> ws[k][j] !in Whitespace
    ensures Concat(ws) == NonBlank(s)
    ensures ws == [] <==> forall k :: 0 <= k < |s| ==> s[k] in Whitespace
    decreases |s|
  {
    if s == [] then []
    else if s[0] in Whitespace then
      var ws := Words(s[1..]);
      assert forall k :: 1 <= k < |s| ==> s[k] == s[1..][k - 1];
      ws
    else
      var w := Word(s);
      assert w == [s[0]] + Word(s[1..]);
      var rest := Words(s[|w|..]);
      NonBlankSplit(s, |w|);
      NonBlankClean(w);
      assert ([w] + rest)[1..] == rest;
      [w] + rest
  }

  /** Words separated by single blanks split back into those words. */
  lemma {:induction false} WordsOfJoin(ws: seq<string>)
    requires forall k :: 0 <= k < |ws| ==> ws[k] != [] && forall j :: 0 <= j < |ws[k]| ==> ws[k][j] !in Whitespace
    ensures Words(Join(ws, " ")) == ws
    decreases |ws|
  {
    if |ws| == 0 {
    } else {
      var w := ws[0];
      var rest := Join(ws[1..], " ");
      var s := if |ws| == 1 then w else w + " " + rest;
      assert Join(ws, " ") == s;
      WordPrefix(w, if |ws| == 1 then [] else " " + rest);
      assert s == w + (if |ws| == 1 then [] else " " + rest);
      assert Word(s) == w;
      WordsOfJoin(ws[1..]);
      if |ws| == 1 {
        assert s[|w|..] == [];
      } else {
        assert s[|w|..] == " " + rest;
        assert (" " + rest)[1..] == rest;
      }
      assert ws == [w] + ws[1..];
    }
  }

  /**
   * Pieces break exactly at whitespace: after leading whitespace `p`, a run
   * `w` of non-whitespace that ends at whitespace or at the end of the text
   * is one whole piece, and splitting goes on in what follows.
   */
  lemma {:induction false} WordsRun(p: string, w: string, q: string)
    requires forall k :: 0 <= k < |p| ==> p[k] in Whitespace
    requires w != [] && forall j :: 0 <= j < |w| ==> w[j] !in Whitespace
    requires q == [] || q[0] in Whitespace
    ensures Words(p + w + q) == [w] + Words(q)
    decreases |p|
  {
    var s := p + w + q;
    if p == [] {
      assert s == w + q;
      WordPrefix(w, q);
      assert s[0] == w[0];
      assert s[|w|..] == q;
    } else {
      assert s[0] == p[0];
      assert s[1..] == p[1..] + w + q;
      WordsRun(p[1..], w, q);
    }
  }

  lemma {:induction false} WordPrefix(w: string, t: string)
    requires w != []
    requires forall j :: 0 <= j < |w| ==> w[j] !in Whitespace
    requires t == [] || t[0] in Whitespace
    ensures Word(w + t) == w
  {
    var r := Word(w + t);
    assert (w + t)[..|w|] == w;
  }

  // ---------------------------------------------------------------------
  // Subsequences

  /** `r` is `s` with some characters deleted: the characters of `r` occur in `s` in the same order. */
  predicate Subsequence(r: string, s: string)
    decreases |s|
  {
    if r == [] then true
    else if s == [] then false
    else (r[0] == s[0] && Subsequence(r[1..], s[1..])) || Subsequence(r, s[1..])
  }

  /** A subsequence of a suffix is a subsequence of the whole text. */
  lemma {:induction false} SubsequenceDrop(r: string, s: string, k: nat)
    requires k <= |s| && Subsequence(r, s[k..])
    ensures Subsequence(r, s)
    decreases k
  {
    if k == 0 {
      assert s[0..] == s;
    } else {
      assert s[1..][k - 1..] == s[k..];
      SubsequenceDrop(r, s[1..], k - 1);
    }
  }

  // ---------------------------------------------------------------------
  // Replacement

  /** `s.replace(pat, rep)`: non-overlapping occurrences, scanning from the left. */
  function Replace(s: string, pat: string, rep: string): string
    requires pat != []
    decreases |s|
  {
    if |s| < |pat| then s
    else if s[..|pat|] == pat then rep + Replace(s[|pat|..], pat, rep)
    else [s[0]] + Replace(s[1..], pat, rep)
  }

  /** The characters of `s` other than `c`, in their order. */
  function Removed(s: string, c: char): string
    decreases |s|
  {
    if s == [] then [] else (if s[0] == c then [] else [s[0]]) + Removed(s[1..], c)
  }

  /** Removing a character leaves no copy of it and keeps the other characters' counts. */
  lemma {:induction false} RemovedCounts(s: string, c: char)
    ensures c !in Removed(s, c)
    ensures multiset(Removed(s, c)) == multiset(s)[c := 0]
    decreases |s|
  {
    if s != [] {
      RemovedCounts(s[1..], c);
      assert s == [s[0]] + s[1..];
    }
  }

  /**
   * Deleting a single character keeps every other character in its order,
   * removes every copy of it and keeps the other characters' counts.
   */
  lemma {:induction false} ReplaceCharDeletes(s: string, c: char)
    ensures Replace(s, [c], []) == Removed(s, c)
    ensures c !in Replace(s, [c], [])
    ensures multiset(Replace(s, [c], [])) == multiset(s)[c := 0]
    decreases |s|
  {
    if s != [] {
      ReplaceCharDeletes(s[1..], c);
      assert s[..1] == [s[0]];
    }
    RemovedCounts(s, c);
  }

  /** Deleting a character that does not occur changes nothing. */
  lemma {:induction false} ReplaceAbsent(s: string, c: char)
    requires c !in s
    ensures Replace(s, [c], []) == s
    decreases |s|
  {
    if s != [] {
      assert s[..1] == [s[0]];
      ReplaceAbsent(s[1..], c);
      assert s == [s[0]] + s[1..];
    }
  }

  /** A text in which `pat` never occurs is left unchanged. */
  lemma {:induction false} ReplaceNoOccurrence(s: string, pat: string, rep: string)
    requires pat != [] && !Contains(s, pat)
    ensures Replace(s, pat, rep) == s
    decreases |s|
  {
    if |s| >= |pat| {
      assert !StartsWith(s, pat);
      ReplaceNoOccurrence(s[1..], pat, rep);
      assert s == [s[0]] + s[1..];
    }
  }

  /** An occurrence at the start is replaced, and the scan goes on after it. */
  lemma ReplaceLeading(pat: string, t: string, rep: string)
    requires pat != []
    ensures Replace(pat + t, pat, rep) == rep + Replace(t, pat, rep)
  {
    assert (pat + t)[..|pat|] == pat;
    assert (pat + t)[|pat|..] == t;
  }

  /** Replacing one character by another rewrites the text position by position. */
  lemma {:induction false} ReplaceCharMaps(s: string, c: char, d: char)
    ensures |Replace(s, [c], [d])| == |s|
    ensures forall i :: 0 <= i < |s| ==> Replace(s, [c], [d])[i] == if s[i] == c then d else s[i]
    decreases |s|
  {
    if s != [] {
      ReplaceCharMaps(s[1..], c, d);
      assert s[..1] == [s[0]];
    }
  }

  // ---------------------------------------------------------------------
  // Integers

  predicate IsDigit(c: char)
  {
    '0' <= c <= '9'
  }

  /** The value of a string of decimal digits. */
  function DigitsValue(d: string): (n: nat)
    requires forall k :: 0 <= k < |d| ==> IsDigit(d[k])
  {
    if d == [] then 0
    else
      assert IsDigit(d[|d| - 1]);
      DigitsValue(d[..|d| - 1]) * 10 + (d[|d| - 1] as int - '0' as int)
  }

  /** `int(s)`: optional blanks, an optional sign and at least one digit; None where Python raises ValueError. */
  function ParseInt(s: string): (r: Option<int>)
  {
    var t := Strip(s);
    var neg := t != [] && t[0] == '-';
    var d := if t != [] && (t[0] == '-' || t[0] == '+') then t[1..] else t;
    if d != [] && forall k :: 0 <= k < |d| ==> IsDigit(d[k]) then
      Some(if neg then -(DigitsValue(d) as int) else DigitsValue(d))
    else None
  }

  /** Two digits parse to their value. */
  lemma ParseTwoDigits(s: string)
    requires |s| == 2 && IsDigit(s[0]) && IsDigit(s[1])
    ensures ParseInt(s) == Some((s[0] as int - '0' as int) * 10 + (s[1] as int - '0' as int))
  {
    assert s[0] !in Whitespace && s[1] !in Whitespace;
    assert RStrip(s, Whitespace) == s;
    assert LStrip(s, Whitespace) == s;
    assert Strip(s) == s;
    assert s[0] != '-' && s[0] != '+';
    assert s[..1] == [s[0]];
    assert s[..1][..0] == [];
    assert DigitsValue(s[..1]) == s[0] as int - '0' as int;
  }
}
