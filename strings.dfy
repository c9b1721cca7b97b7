/** The few JavaScript string operations the front-end relies on, over
    `seq<char>`. Character classes are those of JavaScript regular
    expressions without the `u` flag: `\w` is ASCII-only, `\s` (and
    `String.prototype.trim`) use the full WhiteSpace/LineTerminator set. */
module Strings {

  /** `\s`: the characters JavaScript counts as white space or line terminators. */
  predicate IsSpace(c: char) {
    c == ' ' || ('\t' <= c <= '\r') || ('\U{00A0}' <= c && IsWideSpace(c))
  }

  /** The white space characters outside ASCII. */
  predicate IsWideSpace(c: char) {
    || c == '\U{00A0}' || c == '\U{1680}'
    || ('\U{2000}' <= c <= '\U{200A}')
    || c == '\U{2028}' || c == '\U{2029}' || c == '\U{202F}'
    || c == '\U{205F}' || c == '\U{3000}' || c == '\U{FEFF}'
  }

  predicate IsLower(c: char) { 'a' <= c <= 'z' }

  /** ASCII letters: what `[A-Z]` matches under the `i` flag. */
  predicate IsLetter(c: char) { 'A' <= c <= 'Z' || IsLower(c) }

  predicate IsDigit(c: char) { '0' <= c <= '9' }

  /** `\w`: `[A-Za-z0-9_]`. */
  predicate IsWordChar(c: char) { IsLetter(c) || IsDigit(c) || c == '_' }

  predicate NoSpace(s: string) { forall k :: 0 <= k < |s| ==> !IsSpace(s[k]) }

  predicate AllLetters(s: string) { forall k :: 0 <= k < |s| ==> IsLetter(s[k]) }

  function UpperChar(c: char): char {
    if IsLower(c) then (c as int - 32) as char else c
  }

  /** `toUpperCase`, for the ASCII letters. */
  function Upper(s: string): string {
    seq(|s|, i requires 0 <= i < |s| => UpperChar(s[i]))
  }

  /** `trimStart`: drops the leading white space, and only that. */
  function TrimStart(s: string): (r: string)
    ensures |r| <= |s| && r == s[|s| - |r|..]
    ensures r == [] || !IsSpace(r[0])
    ensures forall i :: 0 <= i < |s| - |r| ==> IsSpace(s[i])
  {
    if s != [] && IsSpace(s[0]) then TrimStart(s[1..]) else s
  }

  /** `trimEnd`: drops the trailing white space, and only that. */
  function TrimEnd(s: string): (r: string)
    ensures |r| <= |s| && r == s[..|r|]
    ensures r == [] || !IsSpace(r[|r| - 1])
    ensures forall i :: |r| <= i < |s| ==> IsSpace(s[i])
  {
    if s != [] && IsSpace(s[|s| - 1]) then TrimEnd(s[..|s| - 1]) else s
  }

  /** `trim`. */
  function Trim(s: string): (r: string)
    ensures r == [] || (!IsSpace(r[0]) && !IsSpace(r[|r| - 1]))
    ensures NoSpace(s) ==> r == s
  {
    TrimEnd(TrimStart(s))
  }

  /** A string with no white space at either end is left alone by trimming. */
  lemma TrimKeeps(s: string)
    requires s == [] || (!IsSpace(s[0]) && !IsSpace(s[|s| - 1]))
    ensures TrimStart(s) == s && TrimEnd(s) == s && Trim(s) == s
  {
  }

  /** Leading white space in front of a non-space is exactly what `trimStart` drops. */
  lemma {:induction false} TrimStartSpaces(sp: string, w: string)
    requires forall k :: 0 <= k < |sp| ==> IsSpace(sp[k])
    requires w == [] || !IsSpace(w[0])
    ensures TrimStart(sp + w) == w
  {
    if sp == [] {
      assert sp + w == w;
    } else {
      assert (sp + w)[0] == sp[0] && (sp + w)[1..] == sp[1..] + w;
      TrimStartSpaces(sp[1..], w);
    }
  }

  /** Trailing white space behind a non-space is exactly what `trimEnd` drops. */
  lemma {:induction false} TrimEndSpaces(w: string, sp: string)
    requires forall k :: 0 <= k < |sp| ==> IsSpace(sp[k])
    requires w == [] || !IsSpace(w[|w| - 1])
    ensures TrimEnd(w + sp) == w
  {
    if sp == [] {
      assert w + sp == w;
    } else {
      var x := w + sp;
      assert x[|x| - 1] == sp[|sp| - 1];
      assert x[..|x| - 1] == w + sp[..|sp| - 1];
      TrimEndSpaces(w, sp[..|sp| - 1]);
    }
  }

  /** Trimming white space followed by a non-empty run of letters leaves the run. */
  lemma TrimSpacesThenLetters(sp: string, w: string)
    requires forall k :: 0 <= k < |sp| ==> IsSpace(sp[k])
    requires |w| > 0 && AllLetters(w)
    ensures Trim(sp + w) == w
  {
    TrimStartSpaces(sp, w);
    assert !IsSpace(w[|w| - 1]);
  }

  predicate StartsWith(s: string, prefix: string) {
    |prefix| <= |s| && s[..|prefix|] == prefix
  }

  /** `s.includes(sub)`. */
  predicate Contains(s: string, sub: string)
    decreases |s|
  {
    StartsWith(s, sub) || (|s| > 0 && Contains(s[1..], sub))
  }

  /** `xs.join(sep)`. */
  function Join(xs: seq<string>, sep: string): string
    decreases |xs|
  {
    if |xs| == 0 then ""
    else if |xs| == 1 then xs[0]
    else xs[0] + sep + Join(xs[1..], sep)
  }

  /** `s.split(sep)` for a non-empty separator: the pieces between the
      occurrences of `sep` found scanning left to right. */
  function Split(s: string, sep: string): (r: seq<string>)
    requires sep != []
    ensures |r| >= 1
    decreases |s|
  {
    if StartsWith(s, sep) then [""] + Split(s[|sep|..], sep)
    else if s == [] then [""]
    else
      var t := Split(s[1..], sep);
      [[s[0]] + t[0]] + t[1..]
  }

  /** A first character other than the separator's own starts the first piece. */
  lemma SplitPlainHead(s: string, sep: string)
    requires sep != [] && s != [] && s[0] != sep[0]
    ensures Split(s, sep) == [[s[0]] + Split(s[1..], sep)[0]] + Split(s[1..], sep)[1..]
  {
    assert !StartsWith(s, sep);
  }

  /** A piece that cannot hold the separator's first character glues onto
      the first piece of whatever follows it. */
  lemma {:induction false} SplitGlue(x: string, rest: string, sep: string)
    requires sep != [] && sep[0] !in x
    ensures Split(x + rest, sep) == [x + Split(rest, sep)[0]] + Split(rest, sep)[1..]
  {
    if x != [] {
      SplitPlainHead(x + rest, sep);
      assert (x + rest)[1..] == x[1..] + rest;
      SplitGlue(x[1..], rest, sep);
      assert [x[0]] + (x[1..] + Split(rest, sep)[0]) == x + Split(rest, sep)[0];
    } else {
      assert x + rest == rest;
      assert x + Split(rest, sep)[0] == Split(rest, sep)[0];
      assert Split(rest, sep) == [Split(rest, sep)[0]] + Split(rest, sep)[1..];
    }
  }

  /** Splitting a joined list gives the list back, provided no element holds
      the separator's first character. */
  lemma {:induction false} SplitJoin(xs: seq<string>, sep: string)
    requires sep != [] && |xs| >= 1
    requires forall i :: 0 <= i < |xs| ==> sep[0] !in xs[i]
    ensures Split(Join(xs, sep), sep) == xs
  {
    if |xs| == 1 {
      SplitGlue(xs[0], "", sep);
      assert xs[0] + "" == xs[0];
    } else {
      var rest := Join(xs[1..], sep);
      assert Join(xs, sep) == xs[0] + (sep + rest);
      SplitGlue(xs[0], sep + rest, sep);
      assert StartsWith(sep + rest, sep);
      assert (sep + rest)[|sep|..] == rest;
      SplitJoin(xs[1..], sep);
      assert xs[0] + "" == xs[0];
    }
  }

  /** `a <= b` between JavaScript strings: lexicographic by character. */
  predicate LexLe(a: string, b: string)
    decreases |a|
  {
    a == [] || (b != [] && (a[0] < b[0] || (a[0] == b[0] && LexLe(a[1..], b[1..]))))
  }

  lemma {:induction false} LexTotal(a: string, b: string)
    ensures LexLe(a, b) || LexLe(b, a)
    decreases |a|
  {
    if a != [] && b != [] && a[0] == b[0] {
      LexTotal(a[1..], b[1..]);
    }
  }

  predicate SortedStrings(xs: seq<string>) {
    forall i :: 0 <= i < |xs| - 1 ==> LexLe(xs[i], xs[i + 1])
  }

  /** Inserts `x` in front of the first element it does not sort after. */
  function InsertString(x: string, t: seq<string>): (r: seq<string>)
    ensures |r| == |t| + 1
  {
    if t == [] then [x]
    else if LexLe(x, t[0]) then [x] + t
    else [t[0]] + InsertString(x, t[1..])
  }

  /** Insertion adds exactly `x`. */
  lemma {:induction false} InsertStringPermutes(x: string, t: seq<string>)
    ensures multiset(InsertString(x, t)) == multiset([x] + t)
  {
    if t != [] && !LexLe(x, t[0]) {
      InsertStringPermutes(x, t[1..]);
      assert t == [t[0]] + t[1..];
    }
  }

  /** The first element after insertion is `x` or the old first element. */
  lemma InsertStringHead(x: string, t: seq<string>)
    ensures InsertString(x, t)[0] == x || (t != [] && InsertString(x, t)[0] == t[0])
  {
  }

  /** A sorted list with a smaller element in front stays sorted. */
  lemma SortedCons(a: string, u: seq<string>)
    requires SortedStrings(u) && (u != [] ==> LexLe(a, u[0]))
    ensures SortedStrings([a] + u)
  {
    var v := [a] + u;
    forall i | 0 <= i < |v| - 1 ensures LexLe(v[i], v[i + 1]) {
      if i > 0 {
        assert v[i] == u[i - 1] && v[i + 1] == u[i];
      }
    }
  }

  /** Insertion into a sorted list keeps it sorted. */
  lemma {:induction false} InsertStringSorts(x: string, t: seq<string>)
    requires SortedStrings(t)
    ensures SortedStrings(InsertString(x, t))
  {
    if t == [] {
    } else if LexLe(x, t[0]) {
      SortedCons(x, t);
    } else {
      LexTotal(x, t[0]);
      var rest := t[1..];
      assert SortedStrings(rest) by {
        assert forall i :: 0 <= i < |rest| ==> rest[i] == t[i + 1];
      }
      InsertStringSorts(x, rest);
      InsertStringHead(x, rest);
      SortedCons(t[0], InsertString(x, rest));
    }
  }

  /** The default `Array.prototype.sort()` on strings: insertion from the back. */
  function SortStrings(xs: seq<string>): (r: seq<string>)
    ensures |r| == |xs|
  {
    if xs == [] then [] else InsertString(xs[0], SortStrings(xs[1..]))
  }

  /** The sort is ascending and a permutation of its input. */
  lemma {:induction false} SortStringsSorts(xs: seq<string>)
    ensures SortedStrings(SortStrings(xs))
    ensures multiset(SortStrings(xs)) == multiset(xs)
  {
    if xs != [] {
      SortStringsSorts(xs[1..]);
      InsertStringSorts(xs[0], SortStrings(xs[1..]));
      InsertStringPermutes(xs[0], SortStrings(xs[1..]));
      assert xs == [xs[0]] + xs[1..];
    }
  }

  /** Two strings in strict order come out in that order from either input order. */
  lemma SortPair(x: string, y: string)
    requires LexLe(x, y) && !LexLe(y, x)
    ensures SortStrings([x, y]) == [x, y] && SortStrings([y, x]) == [x, y]
  {
    assert [x, y][1..] == [y] && [y, x][1..] == [x];
    assert SortStrings([y]) == [y] && SortStrings([x]) == [x];
    assert InsertString(y, [x]) == [x] + InsertString(y, []);
  }

  lemma JoinPair(x: string, y: string, sep: string)
    ensures Join([x, y], sep) == x + sep + y
  {
    assert [x, y][1..] == [y];
  }
}
