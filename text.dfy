/** The Python string operations the scripts rely on, written out over
    `string` (= `seq<char>`): `str.split()`, `str.rstrip()`, `str.split(sep)`,
    `str.startswith`, `str.endswith`, the `in` substring test, `str.replace`,
    `''.join`, `c * n`, `list.index` and the code-point order that `sorted`
    uses on strings. */
module Text {
  import opened Wrappers

  /** The ASCII characters for which Python's `str.isspace()` holds:
      space, `\t \n \v \f \r` (9-13) and the separators 28-31. */
  predicate IsSpace(c: char) {
    c == ' ' || 9 <= c as int <= 13 || 28 <= c as int <= 31
  }

  predicate NoSpace(s: string) {
    forall i :: 0 <= i < |s| ==> !IsSpace(s[i])
  }

  /** Length of the run of non-blank characters that starts `s`. */
  function TokenLen(s: string): (n: nat)
    ensures n <= |s|
    ensures NoSpace(s[..n])
    ensures n < |s| ==> IsSpace(s[n])
  {
    if s == [] || IsSpace(s[0]) then 0
    else
      var k := TokenLen(s[1..]);
      assert s[..k + 1] == [s[0]] + s[1..][..k];
      k + 1
  }

  /** Python's `s.split()`: the maximal runs of non-blank characters, in order.
      (`s.rstrip().split()` is the same list, since `rstrip` only removes
      blanks.) */
  function Split(s: string): (r: seq<string>)
    ensures forall i :: 0 <= i < |r| ==> r[i] != [] && NoSpace(r[i])
    ensures NoSpace(s) && s != [] ==> r == [s]
    decreases |s|
  {
    if s == [] then []
    else if IsSpace(s[0]) then Split(s[1..])
    else
      var n := TokenLen(s);
      assert NoSpace(s) ==> n == |s| && s[..n] == s && s[n..] == [];
      [s[..n]] + Split(s[n..])
  }

  /** A line that starts with the word `w` followed by a blank: its first
      token is `w`. */
  lemma {:induction false} TokenLenOfWord(line: string, w: string)
    requires w != [] && NoSpace(w) && |w| < |line| && line[..|w|] == w && IsSpace(line[|w|])
    ensures TokenLen(line) == |w|
    decreases |w|
  {
    if |w| > 1 {
      assert line[1..][..|w| - 1] == w[1..];
      TokenLenOfWord(line[1..], w[1..]);
    } else {
      assert !IsSpace(line[0]) by { assert line[0] == w[0]; }
      assert TokenLen(line[1..]) == 0;
    }
  }

  /** ... and its tokens are `w` followed by the tokens after the blank:
      `split()` cuts at every blank run and keeps the words in order. */
  lemma SplitWord(line: string, w: string)
    requires w != [] && NoSpace(w) && |w| < |line| && line[..|w|] == w && IsSpace(line[|w|])
    ensures Split(line) == [w] + Split(line[|w| + 1..])
  {
    TokenLenOfWord(line, w);
    assert !IsSpace(line[0]) by { assert line[0] == w[0]; }
    assert line[|w|..][1..] == line[|w| + 1..];
  }

  /** The same law, for a line written as word, blank, rest. */
  lemma SplitWordSpace(w: string, c: char, rest: string)
    requires w != [] && NoSpace(w) && IsSpace(c)
    ensures Split(w + [c] + rest) == [w] + Split(rest)
  {
    var line := w + [c] + rest;
    assert line[..|w|] == w && line[|w|] == c;
    SplitWord(line, w);
    assert line[|w| + 1..] == rest;
  }

  /** Words joined by single spaces split back into the same words. */
  lemma {:induction false} SplitJoin(ws: seq<string>)
    requires forall k :: 0 <= k < |ws| ==> ws[k] != [] && NoSpace(ws[k])
    ensures Split(JoinWith(ws, ' ')) == ws
    decreases |ws|
  {
    if |ws| > 1 {
      var line := JoinWith(ws, ' ');
      var tail := JoinWith(ws[1..], ' ');
      assert line == ws[0] + [' '] + tail;
      assert line[..|ws[0]|] == ws[0];
      assert line[|ws[0]| + 1..] == tail;
      SplitWord(line, ws[0]);
      SplitJoin(ws[1..]);
    }
  }

  /** Python's `s.rstrip()`: `s` without its trailing blanks. */
  function RStrip(s: string): (r: string)
    ensures |r| <= |s| && r == s[..|r|]
    ensures r == [] || !IsSpace(r[|r| - 1])
    ensures forall i :: |r| <= i < |s| ==> IsSpace(s[i])
  {
    if s == [] || !IsSpace(s[|s| - 1]) then s
    else RStrip(s[..|s| - 1])
  }

  predicate StartsWith(s: string, prefix: string) {
    |prefix| <= |s| && s[..|prefix|] == prefix
  }

  predicate EndsWith(s: string, suffix: string) {
    |suffix| <= |s| && s[|s| - |suffix|..] == suffix
  }

  /** Python's `p in s` for strings: `p` occurs somewhere in `s`. */
  predicate Contains(s: string, p: string)
    decreases |s|
  {
    StartsWith(s, p) || (s != [] && Contains(s[1..], p))
  }

  /** Python's `s.replace(old, new)`: every occurrence of `old`, taken left to
      right without overlaps, replaced by `new`. An empty `old` puts `new`
      before every character and at the end, as Python does. */
  function Replace(s: string, pat: string, rep: string): (r: string)
    decreases |s|
  {
    if pat == [] then
      (if s == [] then rep else rep + [s[0]] + Replace(s[1..], pat, rep))
    else if s == [] then []
    else if StartsWith(s, pat) then rep + Replace(s[|pat|..], pat, rep)
    else [s[0]] + Replace(s[1..], pat, rep)
  }

  /** A string in which `pat` does not occur is left as it is. */
  lemma {:induction false} ReplaceAbsent(s: string, pat: string, rep: string)
    requires pat != [] && !Contains(s, pat)
    ensures Replace(s, pat, rep) == s
    decreases |s|
  {
    if s != [] {
      ReplaceAbsent(s[1..], pat, rep);
    }
  }

  /** Removing a suffix: when `pat` occurs in `p + pat` only as that final
      suffix, replacing it by the empty string gives back `p`. */
  lemma {:induction false} ReplaceStripsSuffix(p: string, pat: string)
    requires pat != []
    requires forall i :: 0 <= i < |p| ==> !StartsWith((p + pat)[i..], pat)
    ensures Replace(p + pat, pat, []) == p
    decreases |p|
  {
    var s := p + pat;
    if p == [] {
      assert s[|pat|..] == [];
    } else {
      assert s[0..] == s;
      assert !StartsWith(s, pat);
      var p' := p[1..];
      assert s[1..] == p' + pat;
      forall i | 0 <= i < |p'|
        ensures !StartsWith((p' + pat)[i..], pat)
      {
        assert (p' + pat)[i..] == s[i + 1..];
      }
      ReplaceStripsSuffix(p', pat);
    }
  }

  /** `''.join(parts)`. */
  function Concat(parts: seq<string>): (r: string)
  {
    if parts == [] then [] else Concat(parts[..|parts| - 1]) + parts[|parts| - 1]
  }

  lemma {:induction false} ConcatLength(parts: seq<string>, w: nat)
    requires forall i :: 0 <= i < |parts| ==> |parts[i]| == w
    ensures |Concat(parts)| == |parts| * w
  {
    if parts != [] {
      var init := parts[..|parts| - 1];
      assert forall i :: 0 <= i < |init| ==> init[i] == parts[i];
      ConcatLength(init, w);
      assert |Concat(parts)| == |Concat(init)| + w;
      assert |parts| * w == |init| * w + w;
    }
  }

  /** `sep.join(parts)` for a one-character separator. */
  function JoinWith(parts: seq<string>, sep: char): string
  {
    if parts == [] then []
    else if |parts| == 1 then parts[0]
    else parts[0] + [sep] + JoinWith(parts[1..], sep)
  }

  /** Python's `s.split(sep)` for a one-character separator: the pieces
      between consecutive separators, always at least one of them. */
  function SplitOn(s: string, sep: char): (r: seq<string>)
    ensures |r| >= 1
    ensures forall i :: 0 <= i < |r| ==> sep !in r[i]
    decreases |s|
  {
    if s == [] then [[]]
    else
      var rest := SplitOn(s[1..], sep);
      if s[0] == sep then [[]] + rest
      else [[s[0]] + rest[0]] + rest[1..]
  }

  /** Splitting on a separator and joining with it again is the identity. */
  lemma {:induction false} JoinSplitOn(s: string, sep: char)
    ensures JoinWith(SplitOn(s, sep), sep) == s
    decreases |s|
  {
    if s != [] {
      JoinSplitOn(s[1..], sep);
      var rest := SplitOn(s[1..], sep);
      if s[0] == sep {
        assert SplitOn(s, sep) == [[]] + rest;
        assert ([[]] + rest)[1..] == rest;
      } else {
        var r := SplitOn(s, sep);
        assert r == [[s[0]] + rest[0]] + rest[1..];
        if |rest| == 1 {
          assert r == [[s[0]] + rest[0]];
        } else {
          assert r[1..] == rest[1..];
          assert JoinWith(rest, sep) == rest[0] + [sep] + JoinWith(rest[1..], sep);
        }
      }
    }
  }

  lemma {:induction false} SplitOnNoSep(x: string, sep: char)
    requires sep !in x
    ensures SplitOn(x, sep) == [x]
    decreases |x|
  {
    if x != [] {
      SplitOnNoSep(x[1..], sep);
      assert [x[0]] + x[1..] == x;
    }
  }

  lemma {:induction false} SplitOnFirstSep(x: string, sep: char, rest: string)
    requires sep !in x
    ensures SplitOn(x + [sep] + rest, sep) == [x] + SplitOn(rest, sep)
    decreases |x|
  {
    var s := x + [sep] + rest;
    if x == [] {
      assert s[1..] == rest;
    } else {
      assert s[1..] == x[1..] + [sep] + rest;
      SplitOnFirstSep(x[1..], sep, rest);
      assert [x[0]] + x[1..] == x;
    }
  }

  /** Joining pieces without the separator and splitting again gives the
      pieces back: the other half of the round trip. */
  lemma {:induction false} SplitOnJoinWith(parts: seq<string>, sep: char)
    requires parts != [] && forall k :: 0 <= k < |parts| ==> sep !in parts[k]
    ensures SplitOn(JoinWith(parts, sep), sep) == parts
    decreases |parts|
  {
    if |parts| == 1 {
      SplitOnNoSep(parts[0], sep);
    } else {
      SplitOnJoinWith(parts[1..], sep);
      SplitOnFirstSep(parts[0], sep, JoinWith(parts[1..], sep));
    }
  }

  /** `JoinWith` read from the end. */
  lemma {:induction false} JoinWithLast(parts: seq<string>, sep: char)
    requires |parts| >= 2
    ensures JoinWith(parts, sep) == JoinWith(parts[..|parts| - 1], sep) + [sep] + parts[|parts| - 1]
    decreases |parts|
  {
    if |parts| > 2 {
      JoinWithLast(parts[1..], sep);
      assert parts[1..][..|parts| - 2] == parts[..|parts| - 1][1..];
    } else {
      assert parts[..1] == [parts[0]];
    }
  }

  /** An occurrence in a prefix is an occurrence in the whole. */
  lemma {:induction false} ContainsPrefix(a: string, b: string, p: string)
    requires Contains(a, p)
    ensures Contains(a + b, p)
    decreases |a|
  {
    if StartsWith(a, p) {
      assert (a + b)[..|p|] == a[..|p|];
    } else {
      assert (a + b)[1..] == a[1..] + b;
      ContainsPrefix(a[1..], b, p);
    }
  }

  /** The number of times `sep` occurs in `s`. */
  function CountChar(s: string, sep: char): nat
  {
    if s == [] then 0 else (if s[0] == sep then 1 else 0) + CountChar(s[1..], sep)
  }

  /** `s.split(sep)` yields one more piece than there are separators. */
  lemma {:induction false} SplitOnCount(s: string, sep: char)
    ensures |SplitOn(s, sep)| == CountChar(s, sep) + 1
    decreases |s|
  {
    if s != [] {
      SplitOnCount(s[1..], sep);
    }
  }

  /** Python's `c * n` for a one-character string `c`. */
  function Repeat(c: char, n: nat): (r: string)
    ensures |r| == n
    ensures forall i :: 0 <= i < n ==> r[i] == c
  {
    if n == 0 then [] else Repeat(c, n - 1) + [c]
  }

  /** Python's `xs.index(x)`, with `None` for the `ValueError` it raises
      when `x` is absent. */
  function IndexOf(xs: seq<string>, x: string): (r: Option<nat>)
    ensures r.None? <==> x !in xs
    ensures r.Some? ==> r.value < |xs| && xs[r.value] == x && x !in xs[..r.value]
  {
    if xs == [] then None
    else if xs[0] == x then Some(0)
    else match IndexOf(xs[1..], x)
      case None => None
      case Some(i) => assert xs[..i + 1] == [xs[0]] + xs[1..][..i]; Some(i + 1)
  }

  /** The first index is the only index with no earlier occurrence. */
  lemma IndexOfUnique(xs: seq<string>, x: string, k: nat)
    requires k < |xs| && xs[k] == x && x !in xs[..k]
    ensures IndexOf(xs, x) == Some(k)
  {
  }

  /** Appending to a sequence leaves the first index of an earlier element
      alone, and a new element is found at the end. */
  lemma IndexOfAppend(xs: seq<string>, y: string, x: string)
    ensures x in xs ==> IndexOf(xs + [y], x) == IndexOf(xs, x)
    ensures x !in xs && x == y ==> IndexOf(xs + [y], x) == Some(|xs|)
  {
    if x in xs {
      var k := IndexOf(xs, x).value;
      assert (xs + [y])[..k] == xs[..k];
      IndexOfUnique(xs + [y], x, k);
    } else if x == y {
      assert (xs + [y])[..|xs|] == xs;
      IndexOfUnique(xs + [y], x, |xs|);
    }
  }

  /** The order in which Python's `sorted` puts strings: lexicographic by
      code point, a proper prefix first. */
  predicate Lt(a: string, b: string)
    decreases |a|
  {
    if a == [] then b != []
    else if b == [] then false
    else if a[0] != b[0] then a[0] < b[0]
    else Lt(a[1..], b[1..])
  }

  lemma {:induction false} LtIrreflexive(a: string)
    ensures !Lt(a, a)
    decreases |a|
  {
    if a != [] {
      LtIrreflexive(a[1..]);
    }
  }

  lemma {:induction false} LtTransitive(a: string, b: string, c: string)
    requires Lt(a, b) && Lt(b, c)
    ensures Lt(a, c)
    decreases |a|
  {
    if a != [] && b != [] && c != [] && a[0] == b[0] == c[0] {
      LtTransitive(a[1..], b[1..], c[1..]);
    }
  }

  lemma {:induction false} LtTotal(a: string, b: string)
    requires a != b
    ensures Lt(a, b) || Lt(b, a)
    decreases |a|
  {
    if a != [] && b != [] && a[0] == b[0] {
      assert a == [a[0]] + a[1..] && b == [b[0]] + b[1..];
      LtTotal(a[1..], b[1..]);
    }
  }

  lemma LtAsymmetric(a: string, b: string)
    requires Lt(a, b)
    ensures !Lt(b, a)
  {
    if Lt(b, a) {
      LtTransitive(a, b, a);
      LtIrreflexive(a);
    }
  }

  predicate Le(a: string, b: string) {
    a == b || Lt(a, b)
  }

  lemma NotLtIsLe(a: string, b: string)
    requires !Lt(a, b)
    ensures Le(b, a)
  {
    if a != b {
      LtTotal(a, b);
    }
  }

  lemma LeTransitive(a: string, b: string, c: string)
    requires Le(a, b) && Le(b, c)
    ensures Le(a, c)
  {
    if a != b && b != c {
      LtTransitive(a, b, c);
    }
  }

  predicate Sorted(s: seq<string>) {
    forall i, j :: 0 <= i < j < |s| ==> !Lt(s[j], s[i])
  }

  /** Puts `x` before the first element that is not smaller than it. */
  function Insert(x: string, s: seq<string>): (r: seq<string>)
    ensures multiset(r) == multiset(s) + multiset{x}
  {
    if s == [] then [x]
    else if Lt(s[0], x) then
      assert s == [s[0]] + s[1..];
      [s[0]] + Insert(x, s[1..])
    else [x] + s
  }

  lemma {:induction false} InsertSorted(x: string, s: seq<string>)
    requires Sorted(s)
    ensures Sorted(Insert(x, s))
  {
    if s == [] {
    } else if Lt(s[0], x) {
      var rest := Insert(x, s[1..]);
      assert s == [s[0]] + s[1..];
      InsertSorted(x, s[1..]);
      forall k | 0 <= k < |rest| ensures !Lt(rest[k], s[0]) {
        assert rest[k] in multiset(rest);
        if rest[k] == x {
          LtAsymmetric(s[0], x);
        } else {
          assert rest[k] in multiset(s[1..]);
          var m :| 0 <= m < |s[1..]| && s[1..][m] == rest[k];
          assert s[m + 1] == rest[k];
        }
      }
      assert Insert(x, s) == [s[0]] + rest;
    } else {
      NotLtIsLe(s[0], x);
      forall k | 0 <= k < |s| ensures !Lt(s[k], x) {
        if k == 0 { LtIrreflexive(s[0]); }
        NotLtIsLe(s[k], s[0]);
        LeTransitive(x, s[0], s[k]);
        if x == s[k] {
          LtIrreflexive(x);
        } else {
          LtAsymmetric(x, s[k]);
        }
      }
      assert Insert(x, s) == [x] + s;
    }
  }

  /** Python's `sorted(xs)` on strings. */
  function SortStrings(xs: seq<string>): (r: seq<string>)
    ensures multiset(r) == multiset(xs)
  {
    if xs == [] then []
    else
      assert xs == xs[..|xs| - 1] + [xs[|xs| - 1]];
      Insert(xs[|xs| - 1], SortStrings(xs[..|xs| - 1]))
  }

  lemma {:induction false} SortStringsSorted(xs: seq<string>)
    ensures Sorted(SortStrings(xs))
  {
    if xs != [] {
      SortStringsSorted(xs[..|xs| - 1]);
      InsertSorted(xs[|xs| - 1], SortStrings(xs[..|xs| - 1]));
    }
  }

  /** A sorted list without repetitions is strictly increasing. */
  lemma SortedDistinctIsStrict(s: seq<string>, i: int, j: int)
    requires Sorted(s)
    requires forall a, b :: 0 <= a < b < |s| ==> s[a] != s[b]
    requires 0 <= i < j < |s|
    ensures Lt(s[i], s[j])
  {
    LtTotal(s[i], s[j]);
  }
}
