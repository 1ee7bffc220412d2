/** The JavaScript built-ins the service relies on (String.prototype.split,
    trim, includes, join, toLowerCase, Array.from(new Set(...)), Node's
    path.extname / path.basename and number-to-string conversion), stated
    over Dafny strings so that the other modules can use them. */
module JsLib {

  datatype Option<T> = None | Some(value: T)

  /** `\s` in a JavaScript regular expression, which is also what
      `String.prototype.trim` strips: ECMAScript WhiteSpace and LineTerminator. */
  predicate IsSpace(c: char) {
    || c == '\t' || c == '\n' || c == '\U{B}' || c == '\U{C}' || c == '\r' || c == ' '
    || c == '\U{A0}' || c == '\U{1680}' || ('\U{2000}' <= c <= '\U{200A}')
    || c == '\U{2028}' || c == '\U{2029}' || c == '\U{202F}' || c == '\U{205F}'
    || c == '\U{3000}' || c == '\U{FEFF}'
  }

  predicate AllSpace(s: string) {
    forall i :: 0 <= i < |s| ==> IsSpace(s[i])
  }

  // ---------------------------------------------------------------------------
  // includes / indexOf / split(string) / join

  /** `sep` occurs in `s` starting at index `j`. */
  predicate OccursAt(s: string, sep: string, j: int) {
    0 <= j && j + |sep| <= |s| && s[j..j + |sep|] == sep
  }

  /** `s.indexOf(sep)`: the first index at which `sep` occurs, or None for -1. */
  function Find(s: string, sep: string): (r: Option<nat>)
    requires |sep| > 0
    ensures r.Some? ==> OccursAt(s, sep, r.value)
    ensures r.Some? ==> forall j :: 0 <= j < r.value ==> !OccursAt(s, sep, j)
    ensures r.None? ==> forall j :: 0 <= j ==> !OccursAt(s, sep, j)
    decreases |s|
  {
    if |s| < |sep| then None
    else if s[..|sep|] == sep then Some(0)
    else
      var r := Find(s[1..], sep);
      assert forall j {:trigger OccursAt(s, sep, j)} :: 1 <= j ==> OccursAt(s, sep, j) == OccursAt(s[1..], sep, j - 1) by {
        forall j | 1 <= j { OccursAtShift(s, sep, j); }
      }
      match r
      case None => None
      case Some(i) => Some(i + 1)
  }

  lemma OccursAtShift(s: string, sep: string, j: int)
    requires 1 <= j && |s| > 0
    ensures OccursAt(s, sep, j) == OccursAt(s[1..], sep, j - 1)
  {
    if j + |sep| <= |s| {
      assert s[j..j + |sep|] == s[1..][j - 1..j - 1 + |sep|];
    }
  }

  /** `s.includes(sep)`: `sep` occurs somewhere in `s`. */
  predicate Contains(s: string, sep: string) {
    exists j :: 0 <= j <= |s| && OccursAt(s, sep, j)
  }

  /** `includes` holds exactly when `indexOf` finds an occurrence. */
  lemma ContainsFind(s: string, sep: string)
    requires |sep| > 0
    ensures Contains(s, sep) <==> Find(s, sep).Some?
  {
    if Find(s, sep).Some? {
      assert OccursAt(s, sep, Find(s, sep).value);
    }
  }

  /** `s.split(sep)` for a non-empty string separator: the pieces between
      the leftmost non-overlapping occurrences of `sep`. */
  function SplitOn(s: string, sep: string): (parts: seq<string>)
    requires |sep| > 0
    ensures |parts| >= 1
    decreases |s|
  {
    if |s| < |sep| then [s]
    else if s[..|sep|] == sep then [""] + SplitOn(s[|sep|..], sep)
    else
      var rest := SplitOn(s[1..], sep);
      [[s[0]] + rest[0]] + rest[1..]
  }

  /** `xs.join(sep)`. */
  function Join(xs: seq<string>, sep: string): string {
    if |xs| == 0 then ""
    else if |xs| == 1 then xs[0]
    else xs[0] + sep + Join(xs[1..], sep)
  }

  /** Splitting at the first occurrence `i` of the separator. */
  lemma {:induction false} SplitAtFirst(s: string, sep: string, i: nat)
    requires |sep| > 0 && OccursAt(s, sep, i)
    requires forall j :: 0 <= j < i ==> !OccursAt(s, sep, j)
    ensures SplitOn(s, sep) == [s[..i]] + SplitOn(s[i + |sep|..], sep)
    decreases i
  {
    if i == 0 {
      assert s[..|sep|] == sep;
    } else {
      assert s[..|sep|] != sep by { assert !OccursAt(s, sep, 0); }
      var t := s[1..];
      OccursAtShift(s, sep, i);
      forall j | 0 <= j < i - 1 ensures !OccursAt(t, sep, j) {
        OccursAtShift(s, sep, j + 1);
      }
      SplitAtFirst(t, sep, i - 1);
      var rest := SplitOn(t, sep);
      assert rest[0] == t[..i - 1] && rest[1..] == SplitOn(t[i - 1 + |sep|..], sep);
      assert [s[0]] + t[..i - 1] == s[..i];
      assert t[i - 1 + |sep|..] == s[i + |sep|..];
    }
  }

  /** Splitting a string where the separator does not occur. */
  lemma {:induction false} SplitAbsent(s: string, sep: string)
    requires |sep| > 0 && forall j :: 0 <= j ==> !OccursAt(s, sep, j)
    ensures SplitOn(s, sep) == [s]
    decreases |s|
  {
    if |s| >= |sep| {
      assert s[..|sep|] != sep by { assert !OccursAt(s, sep, 0); }
      var t := s[1..];
      forall j | 0 <= j ensures !OccursAt(t, sep, j) {
        OccursAtShift(s, sep, j + 1);
      }
      SplitAbsent(t, sep);
      assert [s[0]] + t == s;
    }
  }

  /** The first piece of a split is everything before the first occurrence of
      the separator; the remaining pieces are the split of what follows it. */
  lemma SplitOnFind(s: string, sep: string)
    requires |sep| > 0
    ensures Find(s, sep).None? ==> SplitOn(s, sep) == [s]
    ensures Find(s, sep).Some? ==>
      var i := Find(s, sep).value;
      SplitOn(s, sep) == [s[..i]] + SplitOn(s[i + |sep|..], sep)
  {
    match Find(s, sep)
    case None => SplitAbsent(s, sep);
    case Some(i) => SplitAtFirst(s, sep, i);
  }

  /** A split has more than one piece exactly when the separator occurs. */
  lemma SplitOnCount(s: string, sep: string)
    requires |sep| > 0
    ensures |SplitOn(s, sep)| >= 2 <==> Contains(s, sep)
  {
    SplitOnFind(s, sep);
    ContainsFind(s, sep);
  }

  /** Joining the pieces of a split with the same separator gives back the string. */
  lemma {:induction false} JoinSplitOn(s: string, sep: string)
    requires |sep| > 0
    ensures Join(SplitOn(s, sep), sep) == s
    decreases |s|
  {
    SplitOnFind(s, sep);
    match Find(s, sep)
    case None =>
    case Some(i) =>
      var rest := SplitOn(s[i + |sep|..], sep);
      JoinSplitOn(s[i + |sep|..], sep);
      assert ([s[..i]] + rest)[1..] == rest;
      assert s[..i] + sep + s[i + |sep|..] == s;
  }

  /** With a one-character separator that no piece contains, splitting the
      joined string recovers the pieces. */
  lemma {:induction false} SplitOnJoin(xs: seq<string>, sep: string)
    requires |sep| == 1 && |xs| >= 1
    requires forall k :: 0 <= k < |xs| ==> sep[0] !in xs[k]
    ensures SplitOn(Join(xs, sep), sep) == xs
    decreases |xs|
  {
    var j := Join(xs, sep);
    SplitOnFind(j, sep);
    if |xs| == 1 {
      assert Find(j, sep).None?;
    } else {
      var rest := Join(xs[1..], sep);
      assert j == xs[0] + sep + rest;
      assert OccursAt(j, sep, |xs[0]|) by { assert j[|xs[0]|..|xs[0]| + 1] == sep; }
      var i := Find(j, sep).value;
      assert i == |xs[0]|;
      assert j[..i] == xs[0];
      assert j[i + 1..] == rest;
      SplitOnJoin(xs[1..], sep);
      assert [xs[0]] + xs[1..] == xs;
    }
  }

  /** Joining the distinct elements and splitting again gives them back. */
  lemma SplitJoinDistinct(xs: seq<string>, sep: string)
    requires |sep| == 1 && |xs| >= 1
    requires forall k :: 0 <= k < |xs| ==> sep[0] !in xs[k]
    ensures SplitOn(Join(Distinct(xs), sep), sep) == Distinct(xs)
  {
    var d := Distinct(xs);
    assert |d| >= 1 by { assert xs[0] in d; }
    forall i | 0 <= i < |d| ensures sep[0] !in d[i] {
      var j :| 0 <= j < |xs| && xs[j] == d[i];
    }
    SplitOnJoin(d, sep);
  }

  // ---------------------------------------------------------------------------
  // trim

  function TrimStart(s: string): (r: string)
    ensures |r| <= |s| && r == s[|s| - |r|..]
    ensures AllSpace(s[..|s| - |r|])
    ensures r == "" || !IsSpace(r[0])
    decreases |s|
  {
    if |s| > 0 && IsSpace(s[0]) then
      var t := s[1..];
      var r := TrimStart(t);
      assert t[|t| - |r|..] == s[|s| - |r|..];
      var w := s[..|s| - |r|];
      var v := t[..|t| - |r|];
      assert w == [s[0]] + v;
      assert AllSpace(w) by {
        forall i | 0 <= i < |w| ensures IsSpace(w[i]) {
          if i > 0 { assert w[i] == v[i - 1]; }
        }
      }
      r
    else s
  }

  function TrimEnd(s: string): (r: string)
    ensures |r| <= |s| && r == s[..|r|]
    ensures AllSpace(s[|r|..])
    ensures r == "" || !IsSpace(r[|r| - 1])
    decreases |s|
  {
    if |s| > 0 && IsSpace(s[|s| - 1]) then
      var t := s[..|s| - 1];
      var r := TrimEnd(t);
      assert t[..|r|] == s[..|r|];
      assert s[|r|..] == t[|r|..] + [s[|s| - 1]];
      var w := s[|r|..];
      var v := t[|r|..];
      assert AllSpace(w) by {
        forall i | 0 <= i < |w| ensures IsSpace(w[i]) {
          if i < |v| { assert w[i] == v[i]; }
        }
      }
      r
    else s
  }

  /** `s.trim()`: what is left neither starts nor ends with whitespace. */
  function Trim(s: string): string
  {
    TrimEnd(TrimStart(s))
  }

  lemma {:induction false} TrimEndAppendSpace(a: string, w: string)
    requires AllSpace(w)
    ensures TrimEnd(a + w) == TrimEnd(a)
    decreases |w|
  {
    if |w| > 0 {
      assert (a + w)[..|a + w| - 1] == a + w[..|w| - 1];
      TrimEndAppendSpace(a, w[..|w| - 1]);
    } else {
      assert a + w == a;
    }
  }

  lemma TrimEndKeeps(a: string)
    requires a != "" && !IsSpace(a[|a| - 1])
    ensures TrimEnd(a) == a
  {
  }

  lemma TrimStartKeeps(a: string)
    requires a != "" && !IsSpace(a[0])
    ensures TrimStart(a) == a
  {
  }

  lemma {:induction false} TrimStartPrependSpace(w: string, b: string)
    requires AllSpace(w)
    ensures TrimStart(w + b) == TrimStart(b)
    decreases |w|
  {
    if |w| > 0 {
      assert (w + b)[1..] == w[1..] + b;
      TrimStartPrependSpace(w[1..], b);
    } else {
      assert w + b == b;
    }
  }

  // ---------------------------------------------------------------------------
  // split(/\s+/) and split(/\n{2,}/)

  /** `s.split(/\s+/)`: the pieces between maximal runs of whitespace; a
      leading or trailing run yields an empty first or last piece, and the
      empty string yields one empty piece. */
  function Words(s: string): (ws: seq<string>)
    ensures |ws| >= 1
    decreases |s|
  {
    if |s| == 0 then [""]
    else if IsSpace(s[0]) then [""] + Words(TrimStart(s))
    else
      var rest := Words(s[1..]);
      [[s[0]] + rest[0]] + rest[1..]
  }

  /** No word holds a whitespace character. */
  lemma {:induction false} WordsHaveNoSpace(s: string)
    ensures forall k, c :: 0 <= k < |Words(s)| && c in Words(s)[k] ==> !IsSpace(c)
    decreases |s|
  {
    if |s| == 0 {
    } else if IsSpace(s[0]) {
      WordsHaveNoSpace(TrimStart(s));
    } else {
      WordsHaveNoSpace(s[1..]);
      var rest := Words(s[1..]);
      assert forall k :: 1 <= k < |Words(s)| ==> Words(s)[k] == rest[k];
    }
  }

  function DropNewlines(s: string): (r: string)
    ensures |r| <= |s|
    ensures r == "" || r[0] != '\n'
    decreases |s|
  {
    if |s| > 0 && s[0] == '\n' then DropNewlines(s[1..]) else s
  }

  /** `s` holds two consecutive newlines starting at `j`. */
  predicate BlankLineAt(s: string, j: int) {
    0 <= j && j + 1 < |s| && s[j] == '\n' && s[j + 1] == '\n'
  }

  /** `s.split(/\n{2,}/)`: the pieces between maximal runs of two or more newlines. */
  function SplitBlankLines(s: string): (ps: seq<string>)
    ensures |ps| >= 1
    ensures ps[0] != "" ==> s != "" && ps[0][0] == s[0]
    decreases |s|
  {
    if |s| == 0 then [""]
    else if BlankLineAt(s, 0) then [""] + SplitBlankLines(DropNewlines(s))
    else
      var rest := SplitBlankLines(s[1..]);
      [[s[0]] + rest[0]] + rest[1..]
  }

  /** No piece of SplitBlankLines contains a blank line. */
  lemma {:induction false} SplitBlankLinesNoBlankLine(s: string)
    ensures forall k, j :: 0 <= k < |SplitBlankLines(s)| ==> !BlankLineAt(SplitBlankLines(s)[k], j)
    decreases |s|
  {
    if |s| == 0 {
    } else if BlankLineAt(s, 0) {
      SplitBlankLinesNoBlankLine(DropNewlines(s));
    } else {
      SplitBlankLinesNoBlankLine(s[1..]);
      var rest := SplitBlankLines(s[1..]);
      var p := [s[0]] + rest[0];
      forall j ensures !BlankLineAt(p, j) {
        if j > 0 {
          assert !BlankLineAt(rest[0], j - 1);
        }
      }
      assert forall k :: 1 <= k < |SplitBlankLines(s)| ==> SplitBlankLines(s)[k] == rest[k];
    }
  }

  // ---------------------------------------------------------------------------
  // toLowerCase, path.basename, path.extname

  function LowerChar(c: char): char {
    if 'A' <= c <= 'Z' then (c as int + 32) as char else c
  }

  /** `s.toLowerCase()` on the ASCII letters. */
  function ToLower(s: string): (r: string)
    ensures |r| == |s|
    ensures forall i :: 0 <= i < |s| ==> r[i] == LowerChar(s[i])
    decreases |s|
  {
    if s == [] then [] else [LowerChar(s[0])] + ToLower(s[1..])
  }

  /** The last index of `c` in `s`, if any (`lastIndexOf`). */
  function LastIndex(s: string, c: char): (r: Option<nat>)
    ensures r.Some? ==> r.value < |s| && s[r.value] == c
    ensures r.Some? ==> forall j :: r.value < j < |s| ==> s[j] != c
    ensures r.None? ==> c !in s
    decreases |s|
  {
    if |s| == 0 then None
    else if s[|s| - 1] == c then Some(|s| - 1)
    else LastIndex(s[..|s| - 1], c)
  }

  /** `path.basename(p)` for a path without a trailing `/`: the text after the last `/`. */
  function BaseName(p: string): (b: string)
    ensures '/' !in b
    ensures |b| <= |p| && b == p[|p| - |b|..]
  {
    match LastIndex(p, '/')
    case None => p
    case Some(i) => p[i + 1..]
  }

  /** The extension of a base name `b`: from its last `.` to its end, or ""
      when `b` has no `.`, has it only at its start, or is "..". */
  function ExtOf(b: string): (e: string)
    ensures |e| <= |b| && e == b[|b| - |e|..]
    ensures e != "" ==> |e| < |b| && e[0] == '.' && '.' !in e[1..]
  {
    match LastIndex(b, '.')
    case None => ""
    case Some(d) =>
      if d == 0 || b == ".." then ""
      else
        var e := b[d..];
        assert forall k :: 0 <= k < |e| - 1 ==> e[1..][k] == b[d + 1 + k];
        e
  }

  /** `path.extname(p)`. */
  function ExtName(p: string): (e: string)
    ensures e == ExtOf(BaseName(p))
  {
    ExtOf(BaseName(p))
  }

  /** `path.basename(p, path.extname(p))`: the base name without its extension. */
  function Stem(p: string): (s: string)
    ensures s + ExtName(p) == BaseName(p)
  {
    var b := BaseName(p);
    var e := ExtOf(b);
    assert b == b[..|b| - |e|] + e;
    b[..|b| - |e|]
  }

  // ---------------------------------------------------------------------------
  // Number to string

  function DigitChar(d: nat): char
    requires d < 10
  {
    ('0' as int + d) as char
  }

  predicate IsDigit(c: char) {
    '0' <= c <= '9'
  }

  /** `String(n)` for a natural number: its decimal digits, no leading zeros. */
  function NatToString(n: nat): (s: string)
    ensures |s| >= 1 && forall i :: 0 <= i < |s| ==> IsDigit(s[i])
    decreases n
  {
    if n < 10 then [DigitChar(n)] else NatToString(n / 10) + [DigitChar(n % 10)]
  }

  /** The value of a string of decimal digits. */
  function DecimalValue(s: string): nat
    requires forall i :: 0 <= i < |s| ==> IsDigit(s[i])
  {
    if s == [] then 0
    else
      assert IsDigit(s[|s| - 1]);
      DecimalValue(s[..|s| - 1]) * 10 + (s[|s| - 1] as int - '0' as int)
  }

  /** Reading back the decimal digits of `n` gives `n`. */
  lemma {:induction false} DecimalRoundTrip(n: nat)
    ensures DecimalValue(NatToString(n)) == n
    decreases n
  {
    if n >= 10 {
      DecimalRoundTrip(n / 10);
      var s := NatToString(n);
      assert s[..|s| - 1] == NatToString(n / 10);
    }
  }

  /** Different numbers have different decimal strings. */
  lemma NatToStringInjective(a: nat, b: nat)
    requires NatToString(a) == NatToString(b)
    ensures a == b
  {
    DecimalRoundTrip(a);
    DecimalRoundTrip(b);
  }

  // ---------------------------------------------------------------------------
  // Array.from(new Set(xs))

  predicate NoDuplicates<T(==)>(xs: seq<T>) {
    forall i, j :: 0 <= i < j < |xs| ==> xs[i] != xs[j]
  }

  /** Index of the first occurrence of `x` in `xs`. */
  function FirstIndex<T(==)>(xs: seq<T>, x: T): (i: nat)
    requires x in xs
    ensures i < |xs| && xs[i] == x
    ensures forall j :: 0 <= j < i ==> xs[j] != x
  {
    if xs[0] == x then 0 else 1 + FirstIndex(xs[1..], x)
  }

  /** `Array.from(new Set(xs))`: the distinct elements of `xs`, in the order
      of their first appearance. */
  function Distinct<T(==)>(xs: seq<T>): (d: seq<T>)
    ensures forall i :: 0 <= i < |d| ==> d[i] in xs
    ensures forall i :: 0 <= i < |xs| ==> xs[i] in d
    ensures NoDuplicates(d)
    decreases |xs|
  {
    if xs == [] then []
    else
      var p := Distinct(xs[..|xs| - 1]);
      var x := xs[|xs| - 1];
      assert xs == xs[..|xs| - 1] + [x];
      if x in p then p else p + [x]
  }

  lemma FirstIndexPrefix<T>(xs: seq<T>, n: nat, x: T)
    requires n <= |xs| && x in xs[..n]
    ensures x in xs && FirstIndex(xs, x) == FirstIndex(xs[..n], x)
  {
    var i := FirstIndex(xs[..n], x);
    assert xs[i] == x;
    var k := FirstIndex(xs, x);
    assert k <= i;
    assert xs[..n][k] == x;
  }

  /** The distinct elements come in the order of their first appearance in `xs`. */
  lemma {:induction false} DistinctFirstAppearance<T>(xs: seq<T>)
    ensures forall i, j :: 0 <= i < j < |Distinct(xs)| ==>
      FirstIndex(xs, Distinct(xs)[i]) < FirstIndex(xs, Distinct(xs)[j])
    decreases |xs|
  {
    if xs != [] {
      var n := |xs| - 1;
      var pre := xs[..n];
      var p := Distinct(pre);
      var x := xs[n];
      DistinctFirstAppearance(pre);
      forall y | y in p ensures FirstIndex(xs, y) == FirstIndex(pre, y) && FirstIndex(xs, y) < n {
        FirstIndexPrefix(xs, n, y);
      }
      if x !in p {
        assert x !in pre;
        assert FirstIndex(xs, x) == n;
      }
    }
  }

  // ---------------------------------------------------------------------------
  // filter

  /** `xs.filter(keep)`: the elements `keep` accepts, in their order. */
  function Filter<T>(xs: seq<T>, keep: T -> bool): seq<T> {
    if xs == [] then []
    else Filter(xs[..|xs| - 1], keep) + (if keep(xs[|xs| - 1]) then [xs[|xs| - 1]] else [])
  }

  /** A filter keeps exactly the accepted elements, and keeps everything
      when everything is accepted. */
  lemma {:induction false} FilterSpec<T>(xs: seq<T>, keep: T -> bool)
    ensures var f := Filter(xs, keep);
      && |f| <= |xs|
      && (forall k :: 0 <= k < |f| ==> keep(f[k]) && f[k] in xs)
      && (forall k :: 0 <= k < |xs| && keep(xs[k]) ==> xs[k] in f)
      && ((forall k :: 0 <= k < |xs| ==> keep(xs[k])) ==> f == xs)
    decreases |xs|
  {
    if xs != [] {
      var n := |xs| - 1;
      FilterSpec(xs[..n], keep);
      assert xs == xs[..n] + [xs[n]];
    }
  }
}
