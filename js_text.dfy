/**
 * The JavaScript string operations the form relies on, over `seq<char>`:
 * `String.prototype.trim`, `toLowerCase` (on ASCII letters), `split(".").pop()`,
 * the default order of `Array.prototype.sort` on strings, and `join(",")`.
 */
module JsText {

  // ---------------------------------------------------------------- trim

  /** The WhiteSpace and LineTerminator code points that `trim` strips (ECMAScript,
      section 22.1.3.32 and 12.2-12.3; space separators as of Unicode 15). */
  predicate IsSpace(c: char)
  {
    c == '\t' || c == '\n' || c == '\U{000B}' || c == '\U{000C}' || c == '\r' || c == ' '
    || c == '\U{00A0}' || c == '\U{1680}' || ('\U{2000}' <= c <= '\U{200A}')
    || c == '\U{2028}' || c == '\U{2029}' || c == '\U{202F}' || c == '\U{205F}'
    || c == '\U{3000}' || c == '\U{FEFF}'
  }

  predicate AllSpace(s: string)
  {
    forall i :: 0 <= i < |s| ==> IsSpace(s[i])
  }

  /** Drops the leading white space. */
  function TrimStart(s: string): string
  {
    if |s| > 0 && IsSpace(s[0]) then TrimStart(s[1..]) else s
  }

  /** Drops the trailing white space. */
  function TrimEnd(s: string): string
  {
    if |s| > 0 && IsSpace(s[|s| - 1]) then TrimEnd(s[..|s| - 1]) else s
  }

  /** `s.trim()` */
  function Trim(s: string): string
  {
    TrimEnd(TrimStart(s))
  }

  /** `TrimStart` keeps the suffix that starts at the first non-space character. */
  lemma {:induction false} TrimStartSpec(s: string)
    ensures var r := TrimStart(s);
            && |r| <= |s| && r == s[|s| - |r|..]
            && AllSpace(s[..|s| - |r|])
            && (r == [] || !IsSpace(r[0]))
  {
    if |s| > 0 && IsSpace(s[0]) {
      TrimStartSpec(s[1..]);
      var r := TrimStart(s);
      assert s[..|s| - |r|] == [s[0]] + s[1..][..|s| - 1 - |r|];
    }
  }

  /** `TrimEnd` keeps the prefix that ends at the last non-space character. */
  lemma {:induction false} TrimEndSpec(s: string)
    ensures var r := TrimEnd(s);
            && |r| <= |s| && r == s[..|r|]
            && AllSpace(s[|r|..])
            && (r == [] || !IsSpace(r[|r| - 1]))
  {
    if |s| > 0 && IsSpace(s[|s| - 1]) {
      var p := s[..|s| - 1];
      TrimEndSpec(p);
      var r := TrimEnd(p);
      assert TrimEnd(s) == r;
      assert r == s[..|r|];
      forall i | |r| <= i < |s| ensures IsSpace(s[i]) {
        if i < |s| - 1 {
          assert s[i] == p[|r|..][i - |r|];
        }
      }
    }
  }

  lemma AllSpaceConcat(a: string, b: string)
    requires AllSpace(a) && AllSpace(b)
    ensures AllSpace(a + b)
  {
    forall i | 0 <= i < |a + b| ensures IsSpace((a + b)[i]) {
      if i >= |a| { assert (a + b)[i] == b[i - |a|]; }
    }
  }

  /** `s.trim()` is empty exactly when `s` is white space only. */
  lemma TrimEmpty(s: string)
    ensures Trim(s) == [] <==> AllSpace(s)
  {
    var t := TrimStart(s);
    TrimStartSpec(s);
    TrimEndSpec(t);
    var k := |s| - |t|;
    assert s == s[..k] + t;
    if TrimEnd(t) == [] {
      assert t[0..] == t;
      AllSpaceConcat(s[..k], t);
    }
  }

  /** A non-empty `s.trim()` neither starts nor ends with white space. */
  lemma TrimEnds(s: string)
    requires Trim(s) != []
    ensures !IsSpace(Trim(s)[0]) && !IsSpace(Trim(s)[|Trim(s)| - 1])
  {
    var t := TrimStart(s);
    TrimStartSpec(s);
    TrimEndSpec(t);
    assert Trim(s)[0] == t[0];
  }

  lemma {:induction false} TrimEndAppendSpace(s: string, w: string)
    requires AllSpace(w)
    ensures TrimEnd(s + w) == TrimEnd(s)
    decreases |w|
  {
    if w != [] {
      var w' := w[..|w| - 1];
      assert (s + w)[..|s + w| - 1] == s + w';
      TrimEndAppendSpace(s, w');
    } else {
      assert s + w == s;
    }
  }

  lemma {:induction false} TrimStartAppend(s: string, w: string)
    requires !AllSpace(s)
    ensures TrimStart(s + w) == TrimStart(s) + w
    decreases |s|
  {
    if IsSpace(s[0]) {
      assert (s + w)[1..] == s[1..] + w;
      assert !AllSpace(s[1..]) by {
        var i :| 0 <= i < |s| && !IsSpace(s[i]);
        assert s[1..][i - 1] == s[i];
      }
      TrimStartAppend(s[1..], w);
    }
  }

  /** Appending white space never changes the trimmed value. */
  lemma TrimAppendSpace(s: string, w: string)
    requires AllSpace(w)
    ensures Trim(s + w) == Trim(s)
  {
    TrimEmpty(s);
    if AllSpace(s) {
      AllSpaceConcat(s, w);
      TrimEmpty(s + w);
    } else {
      TrimStartAppend(s, w);
      TrimEndAppendSpace(TrimStart(s), w);
    }
  }

  // ---------------------------------------------------------------- toLowerCase

  function LowerChar(c: char): char
  {
    if 'A' <= c <= 'Z' then (c as int + 32) as char else c
  }

  /** `s.toLowerCase()` on ASCII letters; every other character is kept. */
  function ToLower(s: string): string
  {
    seq(|s|, i requires 0 <= i < |s| => LowerChar(s[i]))
  }

  predicate IsCapital(c: char)
  {
    'A' <= c <= 'Z'
  }

  /** Lower-casing keeps the length, leaves no ASCII capital behind, turns each capital into
      the small letter at the same place in the alphabet, and keeps every other character. */
  lemma ToLowerSpec(s: string)
    ensures |ToLower(s)| == |s|
    ensures forall i :: 0 <= i < |s| ==> !IsCapital(ToLower(s)[i])
    ensures forall i :: 0 <= i < |s| && IsCapital(s[i]) ==>
              'a' <= ToLower(s)[i] <= 'z' && ToLower(s)[i] as int - 'a' as int == s[i] as int - 'A' as int
    ensures forall i :: 0 <= i < |s| && !IsCapital(s[i]) ==> ToLower(s)[i] == s[i]
  {
  }

  /** A string without ASCII capitals is its own lower case. */
  lemma ToLowerKeepsLower(s: string)
    requires forall i :: 0 <= i < |s| ==> !IsCapital(s[i])
    ensures ToLower(s) == s
  {
  }

  /** Lower-casing twice is lower-casing once. */
  lemma ToLowerIdempotent(s: string)
    ensures ToLower(ToLower(s)) == ToLower(s)
  {
    ToLowerSpec(s);
    ToLowerKeepsLower(ToLower(s));
  }

  // ---------------------------------------------------------------- split(".").pop()

  /** `s.split(sep).pop()`: the text after the last `sep`, or all of `s` when it has none. */
  function LastSegment(s: string, sep: char): string
  {
    if s == [] then []
    else if s[|s| - 1] == sep then []
    else LastSegment(s[..|s| - 1], sep) + [s[|s| - 1]]
  }

  /** The last segment holds no separator, ends `s`, and is either all of `s` or preceded by
      a separator. */
  lemma {:induction false} LastSegmentSpec(s: string, sep: char)
    ensures var r := LastSegment(s, sep);
            && sep !in r
            && |r| <= |s| && r == s[|s| - |r|..]
            && (|r| < |s| ==> s[|s| - |r| - 1] == sep)
    decreases |s|
  {
    if s != [] && s[|s| - 1] != sep {
      var s' := s[..|s| - 1];
      LastSegmentSpec(s', sep);
      assert s == s' + [s[|s| - 1]];
      var r' := LastSegment(s', sep);
      assert LastSegment(s, sep) == r' + [s[|s| - 1]];
      assert s[|s| - |r'| - 1..] == s'[|s'| - |r'|..] + [s[|s| - 1]];
    }
  }

  /** The segment after the last separator is exactly the tail that holds no separator. */
  lemma {:induction false} LastSegmentOfTail(stem: string, sep: char, tail: string)
    requires sep !in tail
    ensures LastSegment(stem + [sep] + tail, sep) == tail
    decreases |tail|
  {
    var s := stem + [sep] + tail;
    if tail == [] {
      assert s[|s| - 1] == sep;
    } else {
      var t' := tail[..|tail| - 1];
      assert s[..|s| - 1] == stem + [sep] + t';
      assert s[|s| - 1] == tail[|tail| - 1];
      LastSegmentOfTail(stem, sep, t');
      assert t' + [tail[|tail| - 1]] == tail;
    }
  }

  /** Without a separator, the whole string is the last segment. */
  lemma {:induction false} LastSegmentNoSeparator(s: string, sep: char)
    requires sep !in s
    ensures LastSegment(s, sep) == s
    decreases |s|
  {
    if s != [] {
      var s' := s[..|s| - 1];
      LastSegmentNoSeparator(s', sep);
      assert s' + [s[|s| - 1]] == s;
    }
  }

  // ---------------------------------------------------------------- default sort order

  /** The order `Array.prototype.sort` uses on strings: lexicographic by character. */
  predicate Le(a: string, b: string)
  {
    a == [] || (b != [] && (a[0] < b[0] || (a[0] == b[0] && Le(a[1..], b[1..]))))
  }

  lemma {:induction false} LeReflexive(a: string)
    ensures Le(a, a)
    decreases |a|
  {
    if a != [] { LeReflexive(a[1..]); }
  }

  lemma {:induction false} LeTotal(a: string, b: string)
    ensures Le(a, b) || Le(b, a)
    decreases |a|
  {
    if a != [] && b != [] && a[0] == b[0] { LeTotal(a[1..], b[1..]); }
  }

  lemma {:induction false} LeAntisymmetric(a: string, b: string)
    requires Le(a, b) && Le(b, a)
    ensures a == b
    decreases |a|
  {
    if a != [] {
      LeAntisymmetric(a[1..], b[1..]);
      assert a == [a[0]] + a[1..] && b == [b[0]] + b[1..];
    }
  }

  lemma {:induction false} LeTransitive(a: string, b: string, c: string)
    requires Le(a, b) && Le(b, c)
    ensures Le(a, c)
    decreases |a|
  {
    if a != [] && a[0] == b[0] && b[0] == c[0] { LeTransitive(a[1..], b[1..], c[1..]); }
  }

  predicate Sorted(xs: seq<string>)
  {
    forall i, j :: 0 <= i < j < |xs| ==> Le(xs[i], xs[j])
  }

  function Insert(x: string, xs: seq<string>): seq<string>
  {
    if xs == [] then [x]
    else if Le(x, xs[0]) then [x] + xs
    else [xs[0]] + Insert(x, xs[1..])
  }

  /** `xs.slice().sort()` (insertion sort; the order of equal strings is irrelevant). */
  function Sort(xs: seq<string>): seq<string>
  {
    if xs == [] then [] else Insert(xs[0], Sort(xs[1..]))
  }

  /** Inserting adds exactly `x`. */
  lemma {:induction false} InsertPermutes(x: string, xs: seq<string>)
    ensures multiset(Insert(x, xs)) == multiset(xs) + multiset{x}
    decreases |xs|
  {
    if xs != [] && !Le(x, xs[0]) {
      InsertPermutes(x, xs[1..]);
      assert xs == [xs[0]] + xs[1..];
    }
  }

  /** Sorting is a permutation. */
  lemma {:induction false} SortPermutes(xs: seq<string>)
    ensures multiset(Sort(xs)) == multiset(xs)
    decreases |xs|
  {
    if xs != [] {
      SortPermutes(xs[1..]);
      InsertPermutes(xs[0], Sort(xs[1..]));
      assert xs == [xs[0]] + xs[1..];
    }
  }

  lemma {:induction false} InsertSorted(x: string, xs: seq<string>)
    requires Sorted(xs)
    ensures Sorted(Insert(x, xs))
    decreases |xs|
  {
    var r := Insert(x, xs);
    if xs == [] {
    } else if Le(x, xs[0]) {
      forall i, j | 0 <= i < j < |r| ensures Le(r[i], r[j]) {
        if i == 0 && j > 1 { LeTransitive(x, xs[0], xs[j - 1]); }
      }
    } else {
      LeTotal(x, xs[0]);
      SortedTail(xs);
      InsertSorted(x, xs[1..]);
      var t := Insert(x, xs[1..]);
      assert r == [xs[0]] + t;
      InsertLowerBound(xs[0], x, xs[1..]);
    }
  }

  /** A lower bound of `x` and of every element of `xs` bounds every element of the
      insertion. */
  lemma InsertLowerBound(lo: string, x: string, xs: seq<string>)
    requires Le(lo, x)
    requires forall k :: 0 <= k < |xs| ==> Le(lo, xs[k])
    ensures forall j :: 0 <= j < |Insert(x, xs)| ==> Le(lo, Insert(x, xs)[j])
  {
    var t := Insert(x, xs);
    InsertPermutes(x, xs);
    forall j | 0 <= j < |t| ensures Le(lo, t[j]) {
      assert t[j] in multiset(t);
      if t[j] != x {
        assert t[j] in multiset(xs);
        var k :| 0 <= k < |xs| && xs[k] == t[j];
      }
    }
  }

  lemma {:induction false} SortSorted(xs: seq<string>)
    ensures Sorted(Sort(xs))
    decreases |xs|
  {
    if xs != [] {
      SortSorted(xs[1..]);
      InsertSorted(xs[0], Sort(xs[1..]));
    }
  }

  lemma SortedTail(a: seq<string>)
    requires Sorted(a) && a != []
    ensures Sorted(a[1..])
  {
    forall i, j | 0 <= i < j < |a| - 1 ensures Le(a[1..][i], a[1..][j]) {
      assert a[1..][i] == a[i + 1] && a[1..][j] == a[j + 1];
    }
  }

  /** The head of a sorted sequence is below every element of it. */
  lemma SortedHeadLe(a: seq<string>, x: string)
    requires Sorted(a) && x in a
    ensures Le(a[0], x)
  {
    var k :| 0 <= k < |a| && a[k] == x;
    if k == 0 { LeReflexive(x); }
  }

  /** Two sorted sequences holding the same strings start with the same string. */
  lemma SortedSameHead(a: seq<string>, b: seq<string>)
    requires Sorted(a) && Sorted(b) && multiset(a) == multiset(b) && a != []
    ensures b != [] && a[0] == b[0]
  {
    assert a[0] in multiset(b);
    assert b != [];
    assert b[0] in multiset(a);
    SortedHeadLe(b, a[0]);
    SortedHeadLe(a, b[0]);
    LeAntisymmetric(a[0], b[0]);
  }

  /** Dropping the same head from two sequences holding the same strings leaves tails that
      hold the same strings. */
  lemma SameTails(a: seq<string>, b: seq<string>)
    requires multiset(a) == multiset(b) && a != [] && b != [] && a[0] == b[0]
    ensures multiset(a[1..]) == multiset(b[1..])
  {
    assert a == [a[0]] + a[1..] && b == [b[0]] + b[1..];
    assert multiset(a[1..]) == multiset(a) - multiset{a[0]};
    assert multiset(b[1..]) == multiset(b) - multiset{b[0]};
  }

  /** Two sorted sequences holding the same strings are identical. */
  lemma {:induction false} SortedUnique(a: seq<string>, b: seq<string>)
    requires Sorted(a) && Sorted(b) && multiset(a) == multiset(b)
    ensures a == b
    decreases |a|
  {
    if a == [] {
      assert |b| == |multiset(b)| == 0;
    } else {
      SortedSameHead(a, b);
      SameTails(a, b);
      SortedTail(a);
      SortedTail(b);
      SortedUnique(a[1..], b[1..]);
      assert a == [a[0]] + a[1..] && b == [b[0]] + b[1..];
    }
  }

  /** Sorting forgets the order the strings came in. */
  lemma SortPermutationInvariant(xs: seq<string>, ys: seq<string>)
    requires multiset(xs) == multiset(ys)
    ensures Sort(xs) == Sort(ys)
  {
    SortSorted(xs);
    SortSorted(ys);
    SortPermutes(xs);
    SortPermutes(ys);
    SortedUnique(Sort(xs), Sort(ys));
  }

  // ---------------------------------------------------------------- join(",")

  /** `xs.join(",")` */
  function Join(xs: seq<string>): string
  {
    if xs == [] then ""
    else if |xs| == 1 then xs[0]
    else xs[0] + "," + Join(xs[1..])
  }

  /** Strings that `join(",")` keeps apart: non-empty and free of commas. */
  predicate Separable(xs: seq<string>)
  {
    forall i :: 0 <= i < |xs| ==> xs[i] != "" && ',' !in xs[i]
  }

  /** The index of the first comma of `s`, or `|s|` when there is none. */
  function FirstComma(s: string): nat
  {
    if s == [] || s[0] == ',' then 0 else 1 + FirstComma(s[1..])
  }

  lemma {:induction false} FirstCommaAfter(p: string, q: string)
    requires ',' !in p
    ensures FirstComma(p + "," + q) == |p|
    decreases |p|
  {
    if p != [] {
      assert (p + "," + q)[1..] == p[1..] + "," + q;
      FirstCommaAfter(p[1..], q);
    }
  }

  lemma {:induction false} JoinShape(xs: seq<string>)
    requires Separable(xs)
    ensures xs == [] <==> Join(xs) == ""
    ensures |xs| == 1 ==> ',' !in Join(xs)
  {
  }

  /** On non-empty, comma-free strings `join(",")` loses nothing. */
  lemma {:induction false} JoinInjective(xs: seq<string>, ys: seq<string>)
    requires Separable(xs) && Separable(ys)
    requires Join(xs) == Join(ys)
    ensures xs == ys
    decreases |xs|
  {
    JoinShape(xs);
    JoinShape(ys);
    if xs == [] || ys == [] {
    } else if |xs| == 1 || |ys| == 1 {
    } else {
      var s := Join(xs);
      var x, y := xs[0], ys[0];
      FirstCommaAfter(x, Join(xs[1..]));
      FirstCommaAfter(y, Join(ys[1..]));
      assert x == s[..|x|] && y == s[..|y|];
      assert Join(xs[1..]) == s[|x| + 1..] == Join(ys[1..]);
      assert Separable(xs[1..]) && Separable(ys[1..]) by {
        forall i | 0 <= i < |xs[1..]| ensures xs[1..][i] == xs[i + 1] { }
        forall i | 0 <= i < |ys[1..]| ensures ys[1..][i] == ys[i + 1] { }
      }
      JoinInjective(xs[1..], ys[1..]);
      assert xs == [x] + xs[1..] && ys == [y] + ys[1..];
    }
  }
}
