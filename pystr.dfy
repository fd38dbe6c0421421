/** The Python `str` operations that the rewrite engine and the report code rely on,
    written out over `seq<char>` with the edge cases Python gives them. */
module PyStr {

  datatype Option<T> = None | Some(value: T)

  lemma AppendAssoc<T>(a: seq<T>, b: seq<T>, c: seq<T>)
    ensures a + b + c == a + (b + c)
  {
  }

  /** Python's notion of whitespace: `str.isspace()`, which is also what `\s` matches in a
      `str` regex and what `str.split()` / `str.strip()` skip. */
  predicate IsSpace(c: char) {
    c == ' ' || ('\t' <= c <= '\r') || ('\U{1C}' <= c <= '\U{1F}') ||
    c == '\U{85}' || c == '\U{A0}' || c == '\U{1680}' || ('\U{2000}' <= c <= '\U{200A}') ||
    c == '\U{2028}' || c == '\U{2029}' || c == '\U{202F}' || c == '\U{205F}' || c == '\U{3000}'
  }

  predicate IsDigit(c: char) { '0' <= c <= '9' }

  /** `p` occurs in `s` starting at index `i`. */
  predicate OccursAt(s: string, i: int, p: string) {
    0 <= i && i + |p| <= |s| && s[i..i + |p|] == p
  }

  /** `p` occurs nowhere in `s`. */
  ghost predicate Absent(s: string, p: string) {
    forall k :: !OccursAt(s, k, p)
  }

  /** How Python normalises the `start` argument of `str.find`: a negative start counts
      from the end and is clamped at 0. */
  function FindStart(start: int, n: nat): nat {
    if start < 0 then (if start + n < 0 then 0 else start + n) else start
  }

  /** Leftmost occurrence of `p` at or after `i`, or -1. */
  function SearchFrom(s: string, p: string, i: nat): (r: int)
    ensures r == -1 || (i <= r && OccursAt(s, r, p))
    ensures r == -1 ==> forall k :: i <= k ==> !OccursAt(s, k, p)
    ensures r != -1 ==> forall k :: i <= k < r ==> !OccursAt(s, k, p)
    decreases |s| - i
  {
    if i + |p| > |s| then -1
    else if s[i..i + |p|] == p then i
    else SearchFrom(s, p, i + 1)
  }

  /** Python's `s.find(p)`. */
  function Find(s: string, p: string): (r: int)
    ensures r == -1 <==> Absent(s, p)
    ensures r != -1 ==> OccursAt(s, r, p) && forall k :: k < r ==> !OccursAt(s, k, p)
  {
    SearchFrom(s, p, 0)
  }

  /** Python's `s.find(p, start)`, including a negative `start`. */
  function FindFrom(s: string, p: string, start: int): (r: int)
    ensures r == -1 || (FindStart(start, |s|) <= r && OccursAt(s, r, p))
    ensures r != -1 ==> forall k :: FindStart(start, |s|) <= k < r ==> !OccursAt(s, k, p)
    ensures r == -1 ==> forall k :: FindStart(start, |s|) <= k ==> !OccursAt(s, k, p)
  {
    SearchFrom(s, p, FindStart(start, |s|))
  }

  /** How Python normalises a slice bound `i` for a string of length `n`
      (`s[:i]` is `s[..SliceIndex(i, |s|)]`, `s[i:]` is `s[SliceIndex(i, |s|)..]`). */
  function SliceIndex(i: int, n: nat): (k: nat)
    ensures k <= n
    ensures 0 <= i <= n ==> k == i
    ensures i < 0 && i + n >= 0 ==> k == i + n
  {
    if i < 0 then (if i + n < 0 then 0 else i + n) else if i > n then n else i
  }

  /** Python's `s.replace(p, '')`: deletes the leftmost non-overlapping occurrences of `p`,
      scanning left to right; an empty `p` leaves `s` as it is. */
  function RemoveAll(s: string, p: string): (r: string)
    ensures |r| <= |s|
    decreases |s|
  {
    if p == [] || |s| < |p| then s
    else if s[..|p|] == p then RemoveAll(s[|p|..], p)
    else [s[0]] + RemoveAll(s[1..], p)
  }

  lemma {:induction false} RemoveAllAbsent(s: string, p: string)
    requires Absent(s, p)
    ensures RemoveAll(s, p) == s
    decreases |s|
  {
    if p == [] || |s| < |p| {
    } else {
      assert !OccursAt(s, 0, p);
      forall k ensures !OccursAt(s[1..], k, p) {
        if OccursAt(s[1..], k, p) {
          assert s[1..][k..k + |p|] == s[k + 1..k + 1 + |p|];
          assert OccursAt(s, k + 1, p);
        }
      }
      RemoveAllAbsent(s[1..], p);
    }
  }

  /** The leftmost occurrence of `p` is deleted, the text before it is kept, and the
      replacement carries on after it. */
  lemma {:induction false} RemoveAllFirst(s: string, p: string, i: nat)
    requires p != [] && OccursAt(s, i, p)
    requires forall k :: 0 <= k < i ==> !OccursAt(s, k, p)
    ensures RemoveAll(s, p) == s[..i] + RemoveAll(s[i + |p|..], p)
    decreases i
  {
    var u := s[i + |p|..];
    if i == 0 {
      assert s[..|p|] == p;
      assert RemoveAll(s, p) == RemoveAll(u, p);
      assert s[..i] + RemoveAll(u, p) == RemoveAll(u, p);
    } else {
      var t := s[1..];
      calc {
        RemoveAll(s, p);
        { assert s[..|p|] != p by { assert !OccursAt(s, 0, p); } }
        [s[0]] + RemoveAll(t, p);
        { OccurrencesShift(s, p, i); RemoveAllFirst(t, p, i - 1); }
        [s[0]] + (t[..i - 1] + RemoveAll(u, p));
        { AppendAssoc([s[0]], t[..i - 1], RemoveAll(u, p)); }
        [s[0]] + t[..i - 1] + RemoveAll(u, p);
        { PrefixCons(s, i); }
        s[..i] + RemoveAll(u, p);
      }
    }
  }

  lemma PrefixCons(s: string, i: nat)
    requires 0 < i <= |s|
    ensures s[..i] == [s[0]] + s[1..][..i - 1]
  {
  }

  /** Occurrences in `s[1..]` are those in `s`, one position earlier. */
  lemma OccurrencesShift(s: string, p: string, i: nat)
    requires 0 < i && OccursAt(s, i, p)
    requires forall k :: 0 <= k < i ==> !OccursAt(s, k, p)
    ensures OccursAt(s[1..], i - 1, p) && s[1..][i - 1 + |p|..] == s[i + |p|..]
    ensures forall k :: 0 <= k < i - 1 ==> !OccursAt(s[1..], k, p)
  {
    var t := s[1..];
    assert t[i - 1..i - 1 + |p|] == s[i..i + |p|];
    forall k | 0 <= k < i - 1 ensures !OccursAt(t, k, p) {
      assert !OccursAt(s, k + 1, p);
      assert t[k..k + |p|] == s[k + 1..k + 1 + |p|];
    }
  }

  /** The removal loop `for p in ps: s = s.replace(p, '')`. */
  function RemoveEach(s: string, ps: seq<string>): (r: string)
    ensures |r| <= |s|
  {
    if ps == [] then s else RemoveAll(RemoveEach(s, ps[..|ps| - 1]), ps[|ps| - 1])
  }

  /** Drops the leading newlines of `s`. */
  function DropNewlines(s: string): (r: string)
    ensures |r| <= |s| && r == s[|s| - |r|..]
    ensures r == [] || r[0] != '\n'
    ensures s != [] && s[0] == '\n' ==> |r| < |s|
  {
    if s != [] && s[0] == '\n' then DropNewlines(s[1..]) else s
  }

  /** Python's `re.sub(r'\n\n+', '\n\n', s)`: every maximal run of two or more newlines
      becomes exactly two newlines; everything else is copied. */
  function Collapse(s: string): (r: string)
    ensures r == [] <==> s == []
    ensures s != [] ==> r[0] == s[0]
    decreases |s|
  {
    if |s| >= 2 && s[0] == '\n' && s[1] == '\n' then "\n\n" + Collapse(DropNewlines(s))
    else if s == [] then []
    else [s[0]] + Collapse(s[1..])
  }

  /** No three consecutive newlines. */
  predicate NoTripleNewline(s: string) {
    forall i :: 0 <= i && i + 2 < |s| ==> !(s[i] == '\n' && s[i + 1] == '\n' && s[i + 2] == '\n')
  }

  /** Two newlines in front of a text that neither starts with a newline nor holds three
      in a row make no run of three. */
  lemma NoTripleAfterPair(r: string)
    requires NoTripleNewline(r) && (r == [] || r[0] != '\n')
    ensures NoTripleNewline("\n\n" + r)
  {
    var t := "\n\n" + r;
    forall i | 0 <= i && i + 2 < |t| ensures !(t[i] == '\n' && t[i + 1] == '\n' && t[i + 2] == '\n') {
      if i >= 2 {
        assert t[i] == r[i - 2] && t[i + 1] == r[i - 1] && t[i + 2] == r[i];
      } else {
        assert t[2] == r[0];
      }
    }
  }

  /** One character in front keeps a text free of three newlines in a row, unless it is a
      newline and the text starts with one. */
  lemma NoTripleAfterChar(c: char, r: string)
    requires NoTripleNewline(r) && (c == '\n' ==> r == [] || r[0] != '\n')
    ensures NoTripleNewline([c] + r)
  {
    var t := [c] + r;
    forall i | 0 <= i && i + 2 < |t| ensures !(t[i] == '\n' && t[i + 1] == '\n' && t[i + 2] == '\n') {
      if i >= 1 {
        assert t[i] == r[i - 1] && t[i + 1] == r[i] && t[i + 2] == r[i + 1];
      } else {
        assert t[1] == r[0];
      }
    }
  }

  /** A suffix of a text without three newlines in a row has none either. */
  lemma NoTripleSuffix(s: string, k: nat)
    requires NoTripleNewline(s) && k <= |s|
    ensures NoTripleNewline(s[k..])
  {
    var t := s[k..];
    forall i | 0 <= i && i + 2 < |t| ensures !(t[i] == '\n' && t[i + 1] == '\n' && t[i + 2] == '\n') {
      assert t[i] == s[i + k] && t[i + 1] == s[i + k + 1] && t[i + 2] == s[i + k + 2];
    }
  }

  /** Exactly two leading newlines are dropped as a pair. */
  lemma DropPair(s: string)
    requires |s| >= 2 && s[0] == '\n' && s[1] == '\n' && (|s| == 2 || s[2] != '\n')
    ensures DropNewlines(s) == s[2..]
  {
    assert s[1..][1..] == s[2..];
    assert s[2..] == [] || s[2..][0] != '\n';
    assert DropNewlines(s[2..]) == s[2..];
    assert DropNewlines(s[1..]) == DropNewlines(s[1..][1..]);
  }

  /** After collapsing, no run of three or more newlines is left. */
  lemma {:induction false} CollapseNoTriple(s: string)
    ensures NoTripleNewline(Collapse(s))
    decreases |s|
  {
    if |s| >= 2 && s[0] == '\n' && s[1] == '\n' {
      var t := DropNewlines(s);
      CollapseNoTriple(t);
      NoTripleAfterPair(Collapse(t));
    } else if s != [] {
      CollapseNoTriple(s[1..]);
      NoTripleAfterChar(s[0], Collapse(s[1..]));
    }
  }

  /** A text without three consecutive newlines is left as it is by the collapse. */
  lemma {:induction false} CollapseKeepsClean(s: string)
    requires NoTripleNewline(s)
    ensures Collapse(s) == s
    decreases |s|
  {
    if |s| >= 2 && s[0] == '\n' && s[1] == '\n' {
      assert |s| == 2 || s[2] != '\n';
      DropPair(s);
      NoTripleSuffix(s, 2);
      CollapseKeepsClean(s[2..]);
      assert s == "\n\n" + s[2..];
    } else if s != [] {
      NoTripleSuffix(s, 1);
      CollapseKeepsClean(s[1..]);
      assert s == [s[0]] + s[1..];
    }
  }

  /** The collapse changes a text exactly when it holds three consecutive newlines,
      so applying it twice is the same as applying it once. */
  lemma CollapseFixpoint(s: string)
    ensures Collapse(s) == s <==> NoTripleNewline(s)
    ensures Collapse(Collapse(s)) == Collapse(s)
  {
    CollapseNoTriple(s);
    if NoTripleNewline(s) { CollapseKeepsClean(s); }
    CollapseKeepsClean(Collapse(s));
  }

  /** A run of `k` newlines. */
  function Newlines(k: nat): (r: string)
    ensures |r| == k && forall i :: 0 <= i < k ==> r[i] == '\n'
  {
    seq(k, _ => '\n')
  }

  /** A whole run of newlines is dropped, and nothing after it. */
  lemma {:induction false} DropNewlinesRun(k: nat, y: string)
    requires y == [] || y[0] != '\n'
    ensures DropNewlines(Newlines(k) + y) == y
  {
    if k == 0 {
      assert Newlines(k) + y == y;
    } else {
      assert (Newlines(k) + y)[1..] == Newlines(k - 1) + y;
      DropNewlinesRun(k - 1, y);
    }
  }

  /** Dropping the leading newlines of a text that does not end in one leaves text that
      ends like it, and anything appended is untouched. */
  lemma {:induction false} DropNewlinesAppend(x: string, y: string)
    requires x != [] && x[|x| - 1] != '\n'
    ensures DropNewlines(x) != [] && DropNewlines(x + y) == DropNewlines(x) + y
    decreases |x|
  {
    if x[0] == '\n' {
      assert (x + y)[1..] == x[1..] + y;
      DropNewlinesAppend(x[1..], y);
    }
  }

  /** The collapse works run by run: a cut after a character other than a newline splits
      no run, so the two sides collapse separately. */
  lemma {:induction false} CollapseAppend(x: string, y: string)
    requires x == [] || x[|x| - 1] != '\n'
    ensures Collapse(x + y) == Collapse(x) + Collapse(y)
    decreases |x|
  {
    if x == [] {
      assert x + y == y;
    } else if |x| >= 2 && x[0] == '\n' && x[1] == '\n' {
      DropNewlinesAppend(x, y);
      var d := DropNewlines(x);
      assert d[|d| - 1] == x[|x| - 1];
      CollapseAppend(d, y);
      assert (x + y)[0] == '\n' && (x + y)[1] == '\n';
      assert Collapse(x + y) == "\n\n" + Collapse(d + y);
      assert Collapse(x) == "\n\n" + Collapse(d);
      AppendAssoc("\n\n", Collapse(d), Collapse(y));
    } else {
      assert (x + y)[0] == x[0] && (|x| >= 2 ==> (x + y)[1] == x[1]);
      assert (x + y)[1..] == x[1..] + y;
      CollapseAppend(x[1..], y);
      assert Collapse(x + y) == [x[0]] + Collapse(x[1..] + y);
      assert Collapse(x) == [x[0]] + Collapse(x[1..]);
      AppendAssoc([x[0]], Collapse(x[1..]), Collapse(y));
    }
  }

  /** A run of two or more newlines at the front becomes exactly two. */
  lemma CollapseRun(k: nat, y: string)
    requires k >= 2 && (y == [] || y[0] != '\n')
    ensures Collapse(Newlines(k) + y) == "\n\n" + Collapse(y)
  {
    DropNewlinesRun(k, y);
    assert (Newlines(k) + y)[0] == '\n' && (Newlines(k) + y)[1] == '\n';
  }

  /** A lone newline is copied. */
  lemma CollapseLone(y: string)
    requires y == [] || y[0] != '\n'
    ensures Collapse("\n" + y) == "\n" + Collapse(y)
  {
    assert ("\n" + y)[1..] == y;
  }

  /** A run of two or more newlines between two texts becomes exactly two newlines, and the
      texts on either side are collapsed on their own. */
  lemma CollapseAround(x: string, k: nat, y: string)
    requires x == [] || x[|x| - 1] != '\n'
    requires k >= 2 && (y == [] || y[0] != '\n')
    ensures Collapse(x + Newlines(k) + y) == Collapse(x) + "\n\n" + Collapse(y)
  {
    var z := Newlines(k) + y;
    AppendAssoc(x, Newlines(k), y);
    CollapseAppend(x, z);
    CollapseRun(k, y);
    assert Collapse(x + z) == Collapse(x) + ("\n\n" + Collapse(y));
    AppendAssoc(Collapse(x), "\n\n", Collapse(y));
  }

  /** A text without two consecutive newlines is left as it is. */
  lemma CollapseNoPair(s: string)
    requires Absent(s, "\n\n")
    ensures Collapse(s) == s
  {
    forall i | 0 <= i && i + 2 < |s|
      ensures !(s[i] == '\n' && s[i + 1] == '\n' && s[i + 2] == '\n')
    {
      assert !OccursAt(s, i, "\n\n");
      assert s[i..i + 2] == [s[i], s[i + 1]];
    }
    CollapseKeepsClean(s);
  }

  /** Python's `s.lstrip()`. */
  function StripLeft(s: string): (r: string)
    ensures |r| <= |s| && r == s[|s| - |r|..]
    ensures r == [] || !IsSpace(r[0])
    ensures forall k :: 0 <= k < |s| - |r| ==> IsSpace(s[k])
  {
    if s != [] && IsSpace(s[0]) then StripLeft(s[1..]) else s
  }

  /** Python's `s.rstrip()`. */
  function StripRight(s: string): (r: string)
    ensures |r| <= |s| && r == s[..|r|]
    ensures r == [] || !IsSpace(r[|r| - 1])
    ensures forall k :: |r| <= k < |s| ==> IsSpace(s[k])
  {
    if s != [] && IsSpace(s[|s| - 1]) then StripRight(s[..|s| - 1]) else s
  }

  /** Python's `s.strip()`: the text without its surrounding whitespace. */
  function Strip(s: string): (r: string)
    ensures |r| <= |s|
    ensures r == [] || (!IsSpace(r[0]) && !IsSpace(r[|r| - 1]))
    ensures r == s <==> (s == [] || (!IsSpace(s[0]) && !IsSpace(s[|s| - 1])))
  {
    var l := StripLeft(s);
    var r := StripRight(l);
    assert r != [] ==> r[0] == l[0];
    r
  }

  /** Length of the run of non-whitespace characters of `s` starting at `i`. */
  function WordEnd(s: string, i: nat): (w: nat)
    requires i <= |s|
    ensures i <= w <= |s|
    ensures forall k :: i <= k < w ==> !IsSpace(s[k])
    ensures w == |s| || IsSpace(s[w])
    decreases |s| - i
  {
    if i < |s| && !IsSpace(s[i]) then WordEnd(s, i + 1) else i
  }

  /** Python's `s.split()`: the maximal runs of non-whitespace characters, in order. */
  function Tokens(s: string): (r: seq<string>)
    ensures forall t :: t in r ==> t != [] && forall c :: c in t ==> !IsSpace(c)
    decreases |s|
  {
    if s == [] then []
    else if IsSpace(s[0]) then Tokens(s[1..])
    else
      var w := WordEnd(s, 0);
      [s[..w]] + Tokens(s[w..])
  }

  /** Python's `sep.join(xs)`. */
  function Join(xs: seq<string>, sep: string): (r: string)
  {
    if xs == [] then [] else if |xs| == 1 then xs[0] else xs[0] + sep + Join(xs[1..], sep)
  }

  /** Splitting a join of words on a whitespace separator gives the words back. */
  lemma {:induction false} TokensOfJoin(xs: seq<string>, sep: string)
    requires forall t :: t in xs ==> t != [] && forall c :: c in t ==> !IsSpace(c)
    requires sep != [] && forall c :: c in sep ==> IsSpace(c)
    ensures Tokens(Join(xs, sep)) == xs
  {
    if xs == [] {
    } else {
      var x := xs[0];
      assert x in xs;
      var rest := if |xs| == 1 then [] else sep + Join(xs[1..], sep);
      assert Join(xs, sep) == x + rest;
      assert rest != [] ==> rest[0] == sep[0] && sep[0] in sep;
      TokensOfWordThen(x, rest);
      if |xs| > 1 {
        assert forall t :: t in xs[1..] ==> t in xs;
        TokensOfJoin(xs[1..], sep);
        TokensAfterSpace(sep, Join(xs[1..], sep));
      }
    }
  }

  /** Leading whitespace makes no token. */
  lemma {:induction false} TokensAfterSpace(w: string, rest: string)
    requires forall c :: c in w ==> IsSpace(c)
    ensures Tokens(w + rest) == Tokens(rest)
    decreases |w|
  {
    if w == [] {
      assert w + rest == rest;
    } else {
      assert w[0] in w;
      assert (w + rest)[1..] == w[1..] + rest;
      assert forall c :: c in w[1..] ==> c in w;
      TokensAfterSpace(w[1..], rest);
    }
  }

  /** A word followed by text that is empty or starts with whitespace splits off as one token. */
  lemma {:induction false} TokensOfWordThen(x: string, rest: string)
    requires x != [] && forall c :: c in x ==> !IsSpace(c)
    requires rest == [] || IsSpace(rest[0])
    ensures Tokens(x + rest) == [x] + Tokens(rest)
  {
    var s := x + rest;
    var w := WordEnd(s, 0);
    assert forall k :: 0 <= k < |x| ==> s[k] == x[k] && x[k] in x;
    assert forall k :: 0 <= k < |x| ==> !IsSpace(s[k]);
    assert |x| < |s| ==> s[|x|] == rest[0];
    assert w == |x|;
    assert s[..w] == x && s[w..] == rest;
  }

  /** The strict (code point) lexicographic order Python uses to compare strings. */
  predicate Less(a: string, b: string)
    decreases |a|
  {
    if a == [] then b != []
    else if b == [] then false
    else if a[0] != b[0] then a[0] < b[0]
    else Less(a[1..], b[1..])
  }

  lemma {:induction false} LessIrreflexive(a: string)
    ensures !Less(a, a)
    decreases |a|
  {
    if a != [] { LessIrreflexive(a[1..]); }
  }

  lemma {:induction false} LessAsymmetric(a: string, b: string)
    requires Less(a, b)
    ensures !Less(b, a)
    decreases |a|
  {
    if a != [] && b != [] && a[0] == b[0] { LessAsymmetric(a[1..], b[1..]); }
  }

  lemma {:induction false} LessTransitive(a: string, b: string, c: string)
    requires Less(a, b) && Less(b, c)
    ensures Less(a, c)
    decreases |a|
  {
    if a != [] && a[0] == b[0] && b[0] == c[0] { LessTransitive(a[1..], b[1..], c[1..]); }
  }

  lemma {:induction false} LessTotal(a: string, b: string)
    requires a != b
    ensures Less(a, b) || Less(b, a)
    decreases |a|
  {
    if a != [] && b != [] && a[0] == b[0] {
      assert a == [a[0]] + a[1..] && b == [b[0]] + b[1..];
      LessTotal(a[1..], b[1..]);
    }
  }

  /** Decimal digits of a natural number, most significant first, without leading zeros. */
  function DigitString(n: nat): (r: string)
    ensures r != [] && forall c :: c in r ==> IsDigit(c)
  {
    if n < 10 then [('0' as int + n) as char]
    else DigitString(n / 10) + [('0' as int + n % 10) as char]
  }

  /** Python's `str(n)` for an `int`. */
  function IntToString(n: int): string {
    if n < 0 then "-" + DigitString(-n) else DigitString(n)
  }

  /** Python's `int(d)` for a run of ASCII digits. */
  function DigitsValue(d: string): (v: nat)
    requires forall c :: c in d ==> IsDigit(c)
  {
    if d == [] then 0
    else
      var c := d[|d| - 1];
      assert c in d;
      assert IsDigit(c);
      DigitsValue(d[..|d| - 1]) * 10 + (c as int - '0' as int)
  }

  /** Reading back the decimal text of a natural number gives the number. */
  lemma {:induction false} DigitsRoundTrip(n: nat)
    ensures DigitsValue(DigitString(n)) == n
  {
    if n >= 10 {
      DigitsRoundTrip(n / 10);
      var d := DigitString(n);
      assert d[..|d| - 1] == DigitString(n / 10);
    }
  }

  /** ASCII upper case of one character (other characters are kept). */
  function UpperChar(c: char): char {
    if 'a' <= c <= 'z' then (c as int - 32) as char else c
  }

  /** ASCII lower case of one character (other characters are kept). */
  function LowerChar(c: char): char {
    if 'A' <= c <= 'Z' then (c as int + 32) as char else c
  }

  function Upper(s: string): (r: string)
    ensures |r| == |s| && forall k :: 0 <= k < |s| ==> r[k] == UpperChar(s[k])
  {
    if s == [] then [] else [UpperChar(s[0])] + Upper(s[1..])
  }

  function Lower(s: string): (r: string)
    ensures |r| == |s| && forall k :: 0 <= k < |s| ==> r[k] == LowerChar(s[k])
  {
    if s == [] then [] else [LowerChar(s[0])] + Lower(s[1..])
  }
}
