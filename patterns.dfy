/** The regular expressions of the rewrite engine, each written out as an explicit scanner
    that makes the same choices Python's backtracking matcher makes:
      - span patterns  `RUN apt-get update.*?(?=\n[^\n]|$)` and
                       `RUN (?:pip|pip3) install.*?(?=\n[^\n]|$)` (DOTALL, `re.findall`),
      - extraction     `install -y\s+(.+?)[\s\\]*\n` and `install\s+(.+?)[\s\\]*\n`
                       (first match only),
      - copy pattern   `COPY\s+(.+?)\s+(.+?)[\s\\]*\n` (`re.findall`). */
module Patterns {
  import opened PyStr

  // ---------------------------------------------------------------------------
  // Span scanner

  /** Positions where the lazy `.*?` of a span pattern may stop: the lookahead
      `(?=\n[^\n]|$)`, where `$` (no MULTILINE) holds at the very end and just before a
      final newline. */
  predicate SpanStop(s: string, k: nat) {
    k == |s| || (k + 1 == |s| && s[k] == '\n') || (k + 1 < |s| && s[k] == '\n' && s[k + 1] != '\n')
  }

  /** The first stop position at or after `k`. */
  function SpanEnd(s: string, k: nat): (e: nat)
    requires k <= |s|
    ensures k <= e <= |s|
    decreases |s| - k
  {
    if SpanStop(s, k) then k else SpanEnd(s, k + 1)
  }

  /** The lookahead holds where the span ends, and nowhere before it. */
  lemma {:induction false} SpanEndStops(s: string, k: nat)
    requires k <= |s|
    ensures SpanStop(s, SpanEnd(s, k))
    ensures forall x :: k <= x < SpanEnd(s, k) ==> !SpanStop(s, x)
    decreases |s| - k
  {
    if !SpanStop(s, k) {
      SpanEndStops(s, k + 1);
    }
  }

  /** Literal alternatives that can open a span: each non-empty and on one line. */
  ghost predicate ValidHeads(heads: seq<string>) {
    forall h :: h in heads ==> h != [] && '\n' !in h
  }

  /** Length of the first alternative of `heads` that occurs at `i` (regex alternation
      tries its branches in order). */
  function HeadLength(s: string, i: nat, heads: seq<string>): (r: Option<nat>)
    ensures r.Some? ==> i + r.value <= |s| && (ValidHeads(heads) ==> r.value > 0)
  {
    if heads == [] then None
    else if OccursAt(s, i, heads[0]) then
      assert ValidHeads(heads) ==> heads[0] != [] by {
        assert heads[0] in heads;
      }
      Some(|heads[0]|)
    else
      assert forall h :: h in heads[1..] ==> h in heads;
      HeadLength(s, i, heads[1..])
  }

  /** A length is found exactly when some head occurs at `i`, and it is the length of a
      head that occurs there. */
  lemma {:induction false} HeadLengthFound(s: string, i: nat, heads: seq<string>)
    ensures var r := HeadLength(s, i, heads);
            (r.Some? ==> exists h :: h in heads && |h| == r.value && OccursAt(s, i, h)) &&
            (r.None? ==> forall h :: h in heads ==> !OccursAt(s, i, h))
  {
    if heads != [] && !OccursAt(s, i, heads[0]) {
      HeadLengthFound(s, i, heads[1..]);
      assert forall h :: h in heads ==> h == heads[0] || h in heads[1..];
    }
  }

  /** A span as the span patterns match it: it opens with one of the heads and is one
      line followed only by blank lines (a backslash continuation is not followed). */
  ghost predicate IsSpan(sp: string, heads: seq<string>) {
    (exists h :: h in heads && OccursAt(sp, 0, h)) &&
    forall x :: 0 <= x && x + 1 < |sp| && sp[x] == '\n' ==> sp[x + 1] == '\n'
  }

  /** `re.findall` of a span pattern from position `i`: leftmost match, then resume after it. */
  function FindSpans(s: string, i: nat, heads: seq<string>): (r: seq<string>)
    requires ValidHeads(heads)
    decreases |s| - i
  {
    if i >= |s| then []
    else
      var r := HeadLength(s, i, heads);
      if r.None? then FindSpans(s, i + 1, heads)
      else
        var e := SpanEnd(s, i + r.value);
        [s[i..e]] + FindSpans(s, e, heads)
  }

  /** Every span found opens with a head and is one line followed only by blank lines. */
  lemma {:induction false} FindSpansAreSpans(s: string, i: nat, heads: seq<string>)
    requires ValidHeads(heads)
    ensures forall sp :: sp in FindSpans(s, i, heads) ==> IsSpan(sp, heads)
    decreases |s| - i
  {
    if i < |s| {
      var r := HeadLength(s, i, heads);
      if r.None? {
        FindSpansAreSpans(s, i + 1, heads);
      } else {
        SpanFromHead(s, i, r.value, heads);
        FindSpansAreSpans(s, SpanEnd(s, i + r.value), heads);
      }
    }
  }

  /** A head of length `n` at `i`, run to the first stop after it, is a span. */
  lemma {:induction false} SpanFromHead(s: string, i: nat, n: nat, heads: seq<string>)
    requires ValidHeads(heads) && i < |s| && HeadLength(s, i, heads) == Some(n)
    ensures i + n <= |s| && IsSpan(s[i..SpanEnd(s, i + n)], heads)
  {
    HeadLengthFound(s, i, heads);
    var h :| h in heads && |h| == n && OccursAt(s, i, h);
    var e := SpanEnd(s, i + n);
    SpanEndStops(s, i + n);
    HeadStaysAt(s, i, e, h);
    SpanLinesBlank(s, i, e, h);
  }

  /** A head at `i` is still at the start of any slice from `i` that covers it. */
  lemma {:induction false} HeadStaysAt(s: string, i: nat, e: nat, h: string)
    requires OccursAt(s, i, h) && i + |h| <= e <= |s|
    ensures OccursAt(s[i..e], 0, h)
  {
    assert s[i..e][..|h|] == s[i..i + |h|];
  }

  /** From a one-line head to the first stop after it, every newline is followed by
      another newline. */
  lemma {:induction false} SpanLinesBlank(s: string, i: nat, e: nat, h: string)
    requires OccursAt(s, i, h) && '\n' !in h
    requires i + |h| <= e <= |s| && forall x :: i + |h| <= x < e ==> !SpanStop(s, x)
    ensures forall x :: 0 <= x && x + 1 < e - i && s[i..e][x] == '\n' ==> s[i..e][x + 1] == '\n'
  {
    forall x | 0 <= x && x + 1 < e - i && s[i..e][x] == '\n' ensures s[i..e][x + 1] == '\n' {
      if x >= |h| {
        assert !SpanStop(s, i + x);
      }
    }
  }

  /** Where none of the heads occurs, no span is found. */
  lemma {:induction false} NoHeadNoSpan(s: string, i: nat, heads: seq<string>)
    requires ValidHeads(heads)
    requires forall h :: h in heads ==> Absent(s, h)
    ensures FindSpans(s, i, heads) == []
    decreases |s| - i
  {
    if i < |s| {
      HeadLengthFound(s, i, heads);
      NoHeadNoSpan(s, i + 1, heads);
    }
  }

  /** Positions where no head occurs are skipped. */
  lemma {:induction false} FindSpansSkip(s: string, j: nat, i: nat, heads: seq<string>)
    requires ValidHeads(heads) && j <= i
    requires forall k, h :: j <= k < i && h in heads ==> !OccursAt(s, k, h)
    ensures FindSpans(s, j, heads) == FindSpans(s, i, heads)
    decreases i - j
  {
    if j < i && j < |s| {
      HeadLengthFound(s, j, heads);
      assert HeadLength(s, j, heads).None?;
      FindSpansSkip(s, j + 1, i, heads);
    }
  }

  /** The first head at or after `j` opens the first span, which runs to the stop after the
      head; the search resumes at that stop. */
  lemma FindSpansAt(s: string, j: nat, i: nat, h: string, heads: seq<string>)
    requires ValidHeads(heads) && j <= i
    requires h in heads && OccursAt(s, i, h)
    requires forall h' :: h' in heads && OccursAt(s, i, h') ==> |h'| == |h|
    requires forall k, h' :: j <= k < i && h' in heads ==> !OccursAt(s, k, h')
    ensures FindSpans(s, j, heads) ==
            [s[i..SpanEnd(s, i + |h|)]] + FindSpans(s, SpanEnd(s, i + |h|), heads)
  {
    assert h != [] && i < |s|;
    var e := SpanEnd(s, i + |h|);
    calc {
      FindSpans(s, j, heads);
      { FindSpansSkip(s, j, i, heads); }
      FindSpans(s, i, heads);
      { HeadLengthAt(s, i, h, heads); FindSpansHit(s, i, |h|, heads); }
      [s[i..e]] + FindSpans(s, e, heads);
    }
  }

  /** When every head occurring at `i` has the length of `h`, that is the length found. */
  lemma HeadLengthAt(s: string, i: nat, h: string, heads: seq<string>)
    requires h in heads && OccursAt(s, i, h)
    requires forall h' :: h' in heads && OccursAt(s, i, h') ==> |h'| == |h|
    ensures HeadLength(s, i, heads) == Some(|h|)
  {
    HeadLengthFound(s, i, heads);
    var r := HeadLength(s, i, heads);
    assert r.Some?;
    var h' :| h' in heads && |h'| == r.value && OccursAt(s, i, h');
  }

  lemma FindSpansHit(s: string, i: nat, n: nat, heads: seq<string>)
    requires ValidHeads(heads) && i < |s| && i + n <= |s| && HeadLength(s, i, heads) == Some(n)
    ensures FindSpans(s, i, heads) == [s[i..SpanEnd(s, i + n)]] + FindSpans(s, SpanEnd(s, i + n), heads)
  {
    var e := SpanEnd(s, i + n);
    assert FindSpans(s, i, heads) == [s[i..e]] + FindSpans(s, e, heads);
  }

  // ---------------------------------------------------------------------------
  // `\s+(.+?)[\s\\]*\n`, shared by the extraction patterns and the copy pattern

  /** `[\s\\]` */
  predicate IsSpaceOrBackslash(c: char) {
    IsSpace(c) || c == '\\'
  }

  /** End of the maximal run of whitespace starting at `q`. */
  function SpaceRunEnd(s: string, q: nat): (e: nat)
    requires q <= |s|
    ensures q <= e <= |s|
    ensures e == |s| || !IsSpace(s[e])
    decreases |s| - q
  {
    if q < |s| && IsSpace(s[q]) then SpaceRunEnd(s, q + 1) else q
  }

  /** Everything the run covers is whitespace. */
  lemma {:induction false} SpaceRunEndSpaces(s: string, q: nat)
    requires q <= |s|
    ensures forall k :: q <= k < SpaceRunEnd(s, q) ==> IsSpace(s[k])
    decreases |s| - q
  {
    if q < |s| && IsSpace(s[q]) {
      SpaceRunEndSpaces(s, q + 1);
    }
  }

  /** The whitespace run from `q` ends at `e` when `e` is where the whitespace stops. */
  lemma {:induction false} SpaceRunEndAt(s: string, q: nat, e: nat)
    requires q <= e <= |s|
    requires forall k :: q <= k < e ==> IsSpace(s[k])
    requires e == |s| || !IsSpace(s[e])
    ensures SpaceRunEnd(s, q) == e
    decreases e - q
  {
    if q < e { SpaceRunEndAt(s, q + 1, e); }
  }

  /** End of the maximal run of `[\s\\]` characters starting at `q`. */
  function BlankRunEnd(s: string, q: nat): (e: nat)
    requires q <= |s|
    ensures q <= e <= |s|
    ensures e == |s| || !IsSpaceOrBackslash(s[e])
    decreases |s| - q
  {
    if q < |s| && IsSpaceOrBackslash(s[q]) then BlankRunEnd(s, q + 1) else q
  }

  lemma {:induction false} BlankRunEndBlanks(s: string, q: nat)
    requires q <= |s|
    ensures forall k :: q <= k < BlankRunEnd(s, q) ==> IsSpaceOrBackslash(s[k])
    decreases |s| - q
  {
    if q < |s| && IsSpaceOrBackslash(s[q]) {
      BlankRunEndBlanks(s, q + 1);
    }
  }

  /** `[\s\\]*\n` at `q`: the greedy run is cut back to its last newline; the result is the
      end of the match, just after that newline. */
  function TailEnd(s: string, q: nat): (r: Option<nat>)
    requires q <= |s|
    ensures r.Some? ==> q < r.value <= |s| && s[r.value - 1] == '\n'
    ensures q < |s| && s[q] == '\n' ==> r.Some?
    decreases |s| - q
  {
    if q == |s| || !IsSpaceOrBackslash(s[q]) then None
    else match TailEnd(s, q + 1)
      case Some(e) => Some(e)
      case None => if s[q] == '\n' then Some(q + 1) else None
  }

  /** No newline in `s[a..b]`. */
  predicate OneLineBetween(s: string, a: nat, b: nat)
    requires a <= b <= |s|
  {
    forall k :: a <= k < b ==> s[k] != '\n'
  }

  /** `[\s\\]*\n` ends just after the last newline of the run of spaces and backslashes
      at `q`, and fails exactly when that run holds no newline. */
  lemma {:induction false} TailEndRun(s: string, q: nat)
    requires q <= |s|
    ensures var r := TailEnd(s, q); var b := BlankRunEnd(s, q);
            (r.Some? ==> r.value <= b && forall k :: r.value <= k < b ==> s[k] != '\n') &&
            (r.None? ==> forall k :: q <= k < b ==> s[k] != '\n')
    decreases |s| - q
  {
    if q < |s| && IsSpaceOrBackslash(s[q]) {
      TailEndRun(s, q + 1);
    }
  }

  /** A character that is neither whitespace nor a backslash, with no newline before it,
      keeps `[\s\\]*\n` from matching. */
  lemma TailBlocked(s: string, q: nat, k: nat)
    requires q <= k < |s| && !IsSpaceOrBackslash(s[k])
    requires forall x :: q <= x < k ==> s[x] != '\n'
    ensures TailEnd(s, q).None?
  {
    TailEndRun(s, q);
    BlankRunEndBlanks(s, q);
    assert BlankRunEnd(s, q) <= k;
  }

  /** Spaces and backslashes up to a newline let `[\s\\]*\n` match. */
  lemma TailReaches(s: string, q: nat, y: nat)
    requires q <= y < |s| && s[y] == '\n'
    requires forall x :: q <= x < y ==> IsSpaceOrBackslash(s[x])
    ensures TailEnd(s, q).Some? && y < TailEnd(s, q).value
  {
    TailEndRun(s, q);
    var b := BlankRunEnd(s, q);
    assert IsSpaceOrBackslash(s[y]);
    assert y < b;
  }

  /** The lazy group `(.+?)` opened at `g`, tried with the end `e` and then longer ones,
      followed by the tail. Gives the group's end and the match's end. */
  function LazyGroup(s: string, g: nat, e: nat): (r: Option<(nat, nat)>)
    requires g < e <= |s| + 1
    requires forall k :: g <= k < e - 1 ==> s[k] != '\n'
    ensures r.Some? ==> e <= r.value.0 < r.value.1 <= |s| && s[r.value.1 - 1] == '\n'
    ensures r.Some? ==> TailEnd(s, r.value.0) == Some(r.value.1)
    decreases |s| + 1 - e
  {
    if e > |s| || s[e - 1] == '\n' then None
    else match TailEnd(s, e)
      case Some(m) => Some((e, m))
      case None => LazyGroup(s, g, e + 1)
  }

  /** `\s+(.+?)[\s\\]*\n` with the greedy `\s+` from `q` cut back to end at `e`, and
      earlier when the rest fails. Gives group start, group end and match end. */
  function SpacedGroupWithin(s: string, q: nat, e: nat): (r: Option<(nat, nat, nat)>)
    requires q <= e <= |s|
    ensures r.Some? ==> q < r.value.0 <= e && r.value.0 < r.value.1 < r.value.2 <= |s|
    ensures r.Some? ==> s[r.value.2 - 1] == '\n'
    decreases e - q
  {
    if e == q then None
    else match LazyGroup(s, e, e + 1)
      case Some(res) => Some((e, res.0, res.1))
      case None => SpacedGroupWithin(s, q, e - 1)
  }

  /** `\s+(.+?)[\s\\]*\n` at `q`. */
  function SpacedGroup(s: string, q: nat): (r: Option<(nat, nat, nat)>)
    requires q <= |s|
    ensures r.Some? ==> q < r.value.0 < r.value.1 < r.value.2 <= |s|
    ensures r.Some? ==> s[r.value.2 - 1] == '\n'
  {
    SpacedGroupWithin(s, q, SpaceRunEnd(s, q))
  }

  /** The lazy group stays on its line. */
  lemma {:induction false} LazyGroupOneLine(s: string, g: nat, e: nat)
    requires g < e <= |s| + 1
    requires forall k :: g <= k < e - 1 ==> s[k] != '\n'
    ensures var r := LazyGroup(s, g, e);
            r.Some? ==> forall k :: g <= k < r.value.0 ==> s[k] != '\n'
    decreases |s| + 1 - e
  {
    if e <= |s| && s[e - 1] != '\n' && TailEnd(s, e).None? {
      LazyGroupOneLine(s, g, e + 1);
    }
  }

  /** What `\s+` consumes is whitespace, and the group after it stays on its line. */
  lemma {:induction false} SpacedGroupWithinShape(s: string, q: nat, e: nat)
    requires q <= e <= |s|
    requires forall k :: q <= k < e ==> IsSpace(s[k])
    ensures var r := SpacedGroupWithin(s, q, e);
            r.Some? ==> (forall k :: q <= k < r.value.0 ==> IsSpace(s[k])) &&
                        (forall k :: r.value.0 <= k < r.value.1 ==> s[k] != '\n')
    decreases e - q
  {
    if e > q {
      match LazyGroup(s, e, e + 1)
      case Some(_) => LazyGroupOneLine(s, e, e + 1);
      case None => SpacedGroupWithinShape(s, q, e - 1);
    }
  }

  lemma SpacedGroupShape(s: string, q: nat)
    requires q <= |s|
    ensures var r := SpacedGroup(s, q);
            r.Some? ==> (forall k :: q <= k < r.value.0 ==> IsSpace(s[k])) &&
                        (forall k :: r.value.0 <= k < r.value.1 ==> s[k] != '\n')
  {
    SpaceRunEndSpaces(s, q);
    SpacedGroupWithinShape(s, q, SpaceRunEnd(s, q));
  }

  /** A stretch of `s` without a newline is a slice without one. */
  lemma {:induction false} OneLine(s: string, a: nat, b: nat)
    requires a <= b <= |s| && forall k :: a <= k < b ==> s[k] != '\n'
    ensures '\n' !in s[a..b]
  {
    assert forall c :: c in s[a..b] ==> c != '\n';
  }

  /** The lazy group takes the first end after which the tail matches: no shorter group
      is followed by a match, and when there is no match, no one-line group at all is. */
  lemma {:induction false} LazyGroupMinimal(s: string, g: nat, e: nat)
    requires g < e <= |s| + 1
    requires forall k :: g <= k < e - 1 ==> s[k] != '\n'
    ensures var r := LazyGroup(s, g, e);
            (r.Some? ==> forall x :: e <= x < r.value.0 ==> TailEnd(s, x).None?) &&
            (r.None? ==> forall x :: e <= x <= |s| && OneLineBetween(s, g, x) ==> TailEnd(s, x).None?)
    decreases |s| + 1 - e
  {
    if e <= |s| && s[e - 1] != '\n' && TailEnd(s, e).None? {
      LazyGroupMinimal(s, g, e + 1);
    }
  }

  /** The lazy group is the first end `x` after which the tail matches. */
  lemma LazyGroupAt(s: string, g: nat, e: nat, x: nat)
    requires g < e <= x <= |s| && OneLineBetween(s, g, x)
    requires forall y :: e <= y < x ==> TailEnd(s, y).None?
    requires TailEnd(s, x).Some?
    ensures LazyGroup(s, g, e) == Some((x, TailEnd(s, x).value))
  {
    LazyGroupMinimal(s, g, e);
    assert LazyGroup(s, g, e).Some?;
  }

  /** On a line `s[g..y]` whose group part `s[g..x]` ends in a character other than a space
      or a backslash, and whose rest `s[x..y]` is spaces and backslashes, the lazy group is
      exactly `s[g..x]`. */
  lemma LineGroup(s: string, g: nat, x: nat, y: nat)
    requires g < x <= y < |s| && s[y] == '\n'
    requires OneLineBetween(s, g, x) && !IsSpaceOrBackslash(s[x - 1])
    requires forall k :: x <= k < y ==> IsSpaceOrBackslash(s[k])
    ensures TailEnd(s, x).Some? && LazyGroup(s, g, g + 1) == Some((x, TailEnd(s, x).value))
  {
    forall e | g + 1 <= e < x ensures TailEnd(s, e).None? {
      assert forall k :: e <= k < x - 1 ==> s[k] != '\n';
      TailBlocked(s, e, x - 1);
    }
    TailReaches(s, x, y);
    LazyGroupAt(s, g, g + 1, x);
  }

  /** `\s+` runs to the first non-space, and the group opens there when it can. */
  lemma SpacedGroupAt(s: string, q: nat, g: nat, x: nat, m: nat)
    requires q < g < |s| && !IsSpace(s[g])
    requires forall k :: q <= k < g ==> IsSpace(s[k])
    requires LazyGroup(s, g, g + 1) == Some((x, m))
    ensures SpacedGroup(s, q) == Some((g, x, m))
  {
    SpaceRunEndAt(s, q, g);
    SpacedGroupUnfold(s, q, g);
    SpacedGroupFirst(s, q, g, x, m);
  }

  /** `\s+(.+?)[\s\\]*\n` from `q` over one line: the group runs from the first non-space
      `g` to the last character `x - 1` that is neither a space nor a backslash. */
  lemma LineSpacedGroup(s: string, q: nat, g: nat, x: nat, y: nat)
    requires q < g < x <= y < |s| && !IsSpace(s[g])
    requires forall k :: q <= k < g ==> IsSpace(s[k])
    requires OneLineBetween(s, g, x) && !IsSpaceOrBackslash(s[x - 1])
    requires s[y] == '\n' && forall k :: x <= k < y ==> IsSpaceOrBackslash(s[k])
    ensures TailEnd(s, x).Some? && SpacedGroup(s, q) == Some((g, x, TailEnd(s, x).value))
  {
    LineGroup(s, g, x, y);
    SpacedGroupAt(s, q, g, x, TailEnd(s, x).value);
  }

  lemma SpacedGroupUnfold(s: string, q: nat, g: nat)
    requires q < g < |s| && SpaceRunEnd(s, q) == g
    ensures SpacedGroup(s, q) == SpacedGroupWithin(s, q, g)
  {
  }

  lemma SpacedGroupFirst(s: string, q: nat, g: nat, x: nat, m: nat)
    requires q < g < |s| && forall k :: q <= k < g ==> IsSpace(s[k])
    requires LazyGroup(s, g, g + 1) == Some((x, m))
    ensures SpacedGroupWithin(s, q, g) == Some((g, x, m))
  {
  }

  /** `\s+` needs a space to start with. */
  lemma NoSpaceNoGroup(s: string, q: nat)
    requires q < |s| && !IsSpace(s[q])
    ensures SpacedGroup(s, q).None?
  {
    SpaceRunEndAt(s, q, q);
  }

  // ---------------------------------------------------------------------------
  // Package extraction

  /** The group of the first match of `<kw>\s+(.+?)[\s\\]*\n` at or after `j`. */
  function InstallArgsFrom(cmd: string, kw: string, j: nat): (r: Option<string>)
    ensures r.Some? ==> r.value != [] && '\n' !in r.value && '\n' in cmd
    decreases |cmd| - j
  {
    if j + |kw| > |cmd| then None
    else if OccursAt(cmd, j, kw) && SpacedGroup(cmd, j + |kw|).Some? then
      var m := SpacedGroup(cmd, j + |kw|).value;
      assert cmd[m.2 - 1] in cmd;
      SpacedGroupShape(cmd, j + |kw|);
      OneLine(cmd, m.0, m.1);
      Some(cmd[m.0..m.1])
    else InstallArgsFrom(cmd, kw, j + 1)
  }

  /** Positions where the keyword does not occur are skipped. */
  lemma {:induction false} InstallArgsSkip(cmd: string, kw: string, j: nat, i: nat)
    requires j <= i && i + |kw| <= |cmd|
    requires forall k :: j <= k < i ==> !OccursAt(cmd, k, kw)
    ensures InstallArgsFrom(cmd, kw, j) == InstallArgsFrom(cmd, kw, i)
    decreases i - j
  {
    if j < i {
      InstallArgsSkip(cmd, kw, j + 1, i);
    }
  }

  /** What `re.findall(r'<kw>\s+(.+?)[\s\\]*\n', cmd)[0]` holds, if anything: the text
      after the first install keyword up to the end of its line, less trailing blanks and
      backslashes. It never crosses a newline, and it needs one. */
  function InstallArgs(cmd: string, kw: string): (r: Option<string>)
    ensures r.Some? ==> r.value != [] && '\n' !in r.value && '\n' in cmd
  {
    InstallArgsFrom(cmd, kw, 0)
  }

  /** On the line of the first keyword, after whitespace, the arguments run from the first
      non-space to the last character that is neither a space nor a backslash. */
  lemma InstallArgsAt(cmd: string, kw: string, j: nat, g: nat, x: nat, y: nat)
    requires forall k :: 0 <= k < j ==> !OccursAt(cmd, k, kw)
    requires OccursAt(cmd, j, kw) && j + |kw| < g < x <= y < |cmd|
    requires forall k :: j + |kw| <= k < g ==> IsSpace(cmd[k])
    requires !IsSpace(cmd[g]) && cmd[y] == '\n'
    requires OneLineBetween(cmd, g, x) && !IsSpaceOrBackslash(cmd[x - 1])
    requires forall k :: x <= k < y ==> IsSpaceOrBackslash(cmd[k])
    ensures InstallArgs(cmd, kw) == Some(cmd[g..x])
  {
    LineSpacedGroup(cmd, j + |kw|, g, x, y);
    InstallArgsFirst(cmd, kw, j, (g, x, TailEnd(cmd, x).value));
  }

  /** The first keyword followed by a match of the rest of the pattern gives its group. */
  lemma InstallArgsFirst(cmd: string, kw: string, j: nat, m: (nat, nat, nat))
    requires forall k :: 0 <= k < j ==> !OccursAt(cmd, k, kw)
    requires OccursAt(cmd, j, kw) && SpacedGroup(cmd, j + |kw|) == Some(m)
    ensures m.0 <= m.1 <= |cmd| && InstallArgs(cmd, kw) == Some(cmd[m.0..m.1])
  {
    calc {
      InstallArgs(cmd, kw);
      { InstallArgsSkip(cmd, kw, 0, j); }
      InstallArgsFrom(cmd, kw, j);
      { InstallArgsHit(cmd, kw, j, m); }
      Some(cmd[m.0..m.1]);
    }
  }

  lemma InstallArgsHit(cmd: string, kw: string, j: nat, m: (nat, nat, nat))
    requires OccursAt(cmd, j, kw) && SpacedGroup(cmd, j + |kw|) == Some(m)
    ensures m.0 <= m.1 <= |cmd| && InstallArgsFrom(cmd, kw, j) == Some(cmd[m.0..m.1])
  {
  }

  /** Read-back of an install line: behind the first occurrence of the keyword, whitespace,
      the arguments `args` (one line, starting with neither a space nor ending with a space
      or a backslash), then spaces or backslashes and a newline, the extraction gives
      `args` back. */
  lemma InstallArgsRead(prefix: string, kw: string, sep: string, args: string, t: string, rest: string)
    requires var cmd := prefix + kw + sep + args + t + "\n" + rest;
             forall k :: 0 <= k < |prefix| ==> !OccursAt(cmd, k, kw)
    requires sep != [] && forall i :: 0 <= i < |sep| ==> IsSpace(sep[i])
    requires args != [] && '\n' !in args
    requires !IsSpace(args[0]) && !IsSpaceOrBackslash(args[|args| - 1])
    requires forall i :: 0 <= i < |t| ==> IsSpaceOrBackslash(t[i])
    ensures InstallArgs(prefix + kw + sep + args + t + "\n" + rest, kw) == Some(args)
  {
    var cmd := prefix + kw + sep + args + t + "\n" + rest;
    var j := |prefix|;
    var g := j + |kw| + |sep|;
    var x := g + |args|;
    var y := x + |t|;
    assert cmd[j..j + |kw|] == kw;
    forall k | j + |kw| <= k < g ensures IsSpace(cmd[k]) {
      assert cmd[k] == sep[k - j - |kw|];
    }
    assert cmd[g..x] == args;
    forall k | g <= k < x ensures cmd[k] != '\n' {
      assert cmd[k] == args[k - g];
    }
    forall k | x <= k < y ensures IsSpaceOrBackslash(cmd[k]) {
      assert cmd[k] == t[k - x];
    }
    assert cmd[y] == '\n';
    InstallArgsAt(cmd, kw, j, g, x, y);
  }

  /** Package tokens contributed by one span: the whitespace-split first extraction group,
      or nothing when the extraction pattern does not match. */
  function SpanPackages(cmd: string, kw: string): (r: seq<string>)
    ensures '\n' !in cmd ==> r == []
  {
    match InstallArgs(cmd, kw)
    case Some(a) => Tokens(a)
    case None => []
  }

  // ---------------------------------------------------------------------------
  // Copy pattern

  /** The lazy source group opened at `g`, tried with end `e` and then longer ones, then
      `\s+(.+?)[\s\\]*\n` for the destination. Gives source, destination and match end. */
  function CopySource(s: string, g: nat, e: nat): (r: Option<(string, string, nat)>)
    requires g < e <= |s| + 1
    ensures r.Some? ==> e < r.value.2 <= |s|
    decreases |s| + 1 - e
  {
    if e > |s| || s[e - 1] == '\n' then None
    else if e == |s| || !IsSpace(s[e]) then CopySource(s, g, e + 1)
    else match SpacedGroup(s, e)
      case Some(m) => Some((s[g..e], s[m.0..m.1], m.2))
      case None => CopySource(s, g, e + 1)
  }

  /** `COPY\s+` with the greedy run from `a` cut back to end at `e`, then the rest. */
  function CopyWithin(s: string, a: nat, e: nat): (r: Option<(string, string, nat)>)
    requires a <= e <= |s|
    ensures r.Some? ==> a < r.value.2 <= |s|
    decreases e - a
  {
    if e == a then None
    else match CopySource(s, e, e + 1)
      case Some(res) => Some(res)
      case None => CopyWithin(s, a, e - 1)
  }

  /** The copy pattern matched at `j`: source, destination and the end of the match. */
  function CopyAt(s: string, j: nat): (r: Option<(string, string, nat)>)
    ensures r.Some? ==> j < r.value.2 <= |s|
  {
    if OccursAt(s, j, "COPY") then CopyWithin(s, j + 4, SpaceRunEnd(s, j + 4)) else None
  }

  /** `re.findall(r'COPY\s+(.+?)\s+(.+?)[\s\\]*\n', s)` from position `j`: the
      (source, destination) pairs in document order. */
  function CopyPairs(s: string, j: nat): (r: seq<(string, string)>)
    decreases |s| - j
  {
    if j >= |s| then []
    else match CopyAt(s, j)
      case Some(m) => [(m.0, m.1)] + CopyPairs(s, m.2)
      case None => CopyPairs(s, j + 1)
  }

  /** The source group stays on its line and the destination group is one-line too;
      neither is empty. */
  lemma {:induction false} CopySourceShape(s: string, g: nat, e: nat)
    requires g < e <= |s| + 1
    requires forall k :: g <= k < e - 1 ==> s[k] != '\n'
    ensures var r := CopySource(s, g, e);
            r.Some? ==> r.value.0 != [] && r.value.1 != [] && '\n' !in r.value.0 && '\n' !in r.value.1
    decreases |s| + 1 - e
  {
    if e <= |s| && s[e - 1] != '\n' {
      match SpacedGroup(s, e)
      case Some(m) =>
        OneLine(s, g, e);
        SpacedGroupShape(s, e);
        OneLine(s, m.0, m.1);
      case None => CopySourceShape(s, g, e + 1);
    }
  }

  lemma {:induction false} CopyWithinShape(s: string, a: nat, e: nat)
    requires a <= e <= |s|
    ensures var r := CopyWithin(s, a, e);
            r.Some? ==> r.value.0 != [] && r.value.1 != [] && '\n' !in r.value.0 && '\n' !in r.value.1
    decreases e - a
  {
    if e > a {
      CopySourceShape(s, e, e + 1);
      CopyWithinShape(s, a, e - 1);
    }
  }

  /** `re.findall` of the copy pattern yields pairs of non-empty, one-line texts. */
  lemma {:induction false} CopyPairsShape(s: string, j: nat)
    ensures forall p :: p in CopyPairs(s, j) ==> p.0 != [] && p.1 != [] && '\n' !in p.0 && '\n' !in p.1
    decreases |s| - j
  {
    if j < |s| {
      if OccursAt(s, j, "COPY") {
        CopyWithinShape(s, j + 4, SpaceRunEnd(s, j + 4));
      }
      match CopyAt(s, j)
      case Some(m) => CopyPairsShape(s, m.2);
      case None => CopyPairsShape(s, j + 1);
    }
  }

  /** Where "COPY" does not occur, the copy pattern finds nothing. */
  lemma {:induction false} NoCopyNoPairs(s: string, j: nat)
    requires Absent(s, "COPY")
    ensures CopyPairs(s, j) == []
    decreases |s| - j
  {
    if j < |s| {
      NoCopyNoPairs(s, j + 1);
    }
  }

  predicate NonSpace(c: char) {
    !IsSpace(c)
  }

  /** Every character of `s[a..b]` is in the class `f`, stated one character at a time. */
  predicate AllIn(s: string, a: nat, b: nat, f: char -> bool)
    requires a <= b <= |s|
    decreases b - a
  {
    a == b || (f(s[a]) && AllIn(s, a + 1, b, f))
  }

  lemma {:induction false} AllInMeans(s: string, a: nat, b: nat, f: char -> bool)
    requires a <= b <= |s|
    ensures AllIn(s, a, b, f) <==> forall k :: a <= k < b ==> f(s[k])
    decreases b - a
  {
    if a < b {
      AllInMeans(s, a + 1, b, f);
    }
  }

  /** The lazy source group grows over characters other than whitespace: `\s+` cannot
      start there. */
  lemma {:induction false} CopySourceSkip(s: string, g: nat, e: nat, x: nat)
    requires g < e <= x < |s| && s[e - 1] != '\n' && AllIn(s, e, x, NonSpace)
    ensures CopySource(s, g, e) == CopySource(s, g, x)
    decreases x - e
  {
    if e < x {
      CopySourceStep(s, g, e);
      CopySourceSkip(s, g, e + 1, x);
    }
  }

  lemma CopySourceStep(s: string, g: nat, e: nat)
    requires g < e < |s| && !IsSpace(s[e]) && s[e - 1] != '\n'
    ensures CopySource(s, g, e) == CopySource(s, g, e + 1)
  {
    NoSpaceNoGroup(s, e);
  }

  lemma CopySourceHit(s: string, g: nat, x: nat, m: (nat, nat, nat))
    requires g < x <= |s| && s[x - 1] != '\n'
    requires SpacedGroup(s, x) == Some(m)
    ensures CopySource(s, g, x) == Some((s[g..x], s[m.0..m.1], m.2))
  {
  }

  lemma NoSpaceOneLine(s: string, a: nat, b: nat)
    requires a <= b <= |s| && forall k :: a <= k < b ==> !IsSpace(s[k])
    ensures OneLineBetween(s, a, b)
  {
  }

  /** The shape of a copy line at `j`: "COPY", whitespace, a whitespace-free source
      `s[a..b]`, whitespace, a whitespace-free destination `s[c..d]` that does not end in a
      backslash, then spaces or backslashes up to the newline at `y`. */
  predicate CopyLineAt(s: string, j: nat, a: nat, b: nat, c: nat, d: nat, y: nat)
  {
    && OccursAt(s, j, "COPY") && j + 4 < a < b < c < d <= y < |s|
    && AllIn(s, j + 4, a, IsSpace) && AllIn(s, a, b, NonSpace)
    && AllIn(s, b, c, IsSpace) && AllIn(s, c, d, NonSpace)
    && s[d - 1] != '\\' && s[y] == '\n'
    && AllIn(s, d, y, IsSpaceOrBackslash)
  }

  /** A copy line `COPY<ws><src><ws><dest>` followed by spaces or backslashes and a newline,
      with `src` and `dest` free of whitespace and `dest` not ending in a backslash, matches
      with exactly that source and destination. Positions: `src` is `s[a..b]`, `dest` is
      `s[c..d]`, the newline is at `y`. */
  lemma CopyAtLine(s: string, j: nat, a: nat, b: nat, c: nat, d: nat, y: nat)
    requires CopyLineAt(s, j, a, b, c, d, y)
    ensures TailEnd(s, d).Some? && CopyAt(s, j) == Some((s[a..b], s[c..d], TailEnd(s, d).value))
  {
    AllInMeans(s, j + 4, a, IsSpace);
    AllInMeans(s, a, b, NonSpace);
    AllInMeans(s, b, c, IsSpace);
    AllInMeans(s, c, d, NonSpace);
    AllInMeans(s, d, y, IsSpaceOrBackslash);
    DestinationGroup(s, b, c, d, y);
    var t := TailEnd(s, d).value;
    SourceGroup(s, a, b, (c, d, t));
    SpaceRunEndAt(s, j + 4, a);
    CopyAtFirst(s, j, a, (s[a..b], s[c..d], t));
  }

  /** The destination part `\s+(.+?)[\s\\]*\n` of a copy line. */
  lemma DestinationGroup(s: string, b: nat, c: nat, d: nat, y: nat)
    requires b < c < d <= y < |s|
    requires forall k :: b <= k < c ==> IsSpace(s[k])
    requires forall k :: c <= k < d ==> !IsSpace(s[k])
    requires s[d - 1] != '\\' && s[y] == '\n'
    requires forall k :: d <= k < y ==> IsSpaceOrBackslash(s[k])
    ensures TailEnd(s, d).Some? && SpacedGroup(s, b) == Some((c, d, TailEnd(s, d).value))
  {
    NoSpaceOneLine(s, c, d);
    assert !IsSpaceOrBackslash(s[d - 1]);
    LineSpacedGroup(s, b, c, d, y);
  }

  /** The lazy source group of a copy line stops at the first whitespace. */
  lemma SourceGroup(s: string, a: nat, b: nat, m: (nat, nat, nat))
    requires a < b < |s| && AllIn(s, a, b, NonSpace)
    requires SpacedGroup(s, b) == Some(m)
    ensures CopySource(s, a, a + 1) == Some((s[a..b], s[m.0..m.1], m.2))
  {
    AllInMeans(s, a, b, NonSpace);
    CopySourceHit(s, a, b, m);
    CopySourceSkip(s, a, a + 1, b);
  }

  lemma CopyAtFirst(s: string, j: nat, a: nat, res: (string, string, nat))
    requires OccursAt(s, j, "COPY") && j + 4 < a <= |s| && SpaceRunEnd(s, j + 4) == a
    requires CopySource(s, a, a + 1) == Some(res)
    ensures CopyAt(s, j) == Some(res)
  {
    CopyAtUnfold(s, j, a);
    CopyWithinFirst(s, j + 4, a, res);
  }

  lemma CopyAtUnfold(s: string, j: nat, a: nat)
    requires OccursAt(s, j, "COPY") && j + 4 <= a <= |s| && SpaceRunEnd(s, j + 4) == a
    ensures CopyAt(s, j) == CopyWithin(s, j + 4, a)
  {
  }

  lemma CopyWithinFirst(s: string, q: nat, a: nat, res: (string, string, nat))
    requires q < a <= |s| && CopySource(s, a, a + 1) == Some(res)
    ensures CopyWithin(s, q, a) == Some(res)
  {
  }

  /** Positions where "COPY" does not occur are skipped. */
  lemma {:induction false} CopyPairsSkip(s: string, j: nat, i: nat)
    requires j <= i
    requires forall k :: j <= k < i ==> !OccursAt(s, k, "COPY")
    ensures CopyPairs(s, j) == CopyPairs(s, i)
    decreases i - j
  {
    if j < i && j < |s| {
      CopyPairsSkip(s, j + 1, i);
    }
  }

  /** Read-back of a copy line: behind the first "COPY", a line `COPY <src> <dest>` with
      whitespace-free `src` and `dest` (the latter not ending in a backslash), followed by
      spaces or backslashes and a newline, gives `(src, dest)` as the first pair, and the
      search resumes after the newline that ends the match. */
  lemma CopyPairsRead(prefix: string, sep1: string, src: string, sep2: string, dest: string,
                      t: string, rest: string)
    requires var s := prefix + "COPY" + sep1 + src + sep2 + dest + t + "\n" + rest;
             forall k :: 0 <= k < |prefix| ==> !OccursAt(s, k, "COPY")
    requires sep1 != [] && forall i :: 0 <= i < |sep1| ==> IsSpace(sep1[i])
    requires sep2 != [] && forall i :: 0 <= i < |sep2| ==> IsSpace(sep2[i])
    requires src != [] && forall i :: 0 <= i < |src| ==> !IsSpace(src[i])
    requires dest != [] && forall i :: 0 <= i < |dest| ==> !IsSpace(dest[i])
    requires dest[|dest| - 1] != '\\'
    requires forall i :: 0 <= i < |t| ==> IsSpaceOrBackslash(t[i])
    ensures var s := prefix + "COPY" + sep1 + src + sep2 + dest + t + "\n" + rest;
            var y := |prefix| + 4 + |sep1| + |src| + |sep2| + |dest| + |t|;
            exists e :: y < e <= |s| && CopyPairs(s, 0) == [(src, dest)] + CopyPairs(s, e)
  {
    var s := prefix + "COPY" + sep1 + src + sep2 + dest + t + "\n" + rest;
    var j := |prefix|;
    var a := j + 4 + |sep1|;
    var b := a + |src|;
    var c := b + |sep2|;
    var d := c + |dest|;
    var y := d + |t|;
    CopyLinePieces(s, prefix, sep1, src, sep2, dest, t, rest, j, a, b, c, d, y);
    CopyPairsLine(s, j, a, b, c, d, y, src, dest);
  }

  /** Where each piece of a copy line sits in the text. */
  lemma CopyLinePieces(s: string, prefix: string, sep1: string, src: string, sep2: string,
                       dest: string, t: string, rest: string,
                       j: nat, a: nat, b: nat, c: nat, d: nat, y: nat)
    requires s == prefix + "COPY" + sep1 + src + sep2 + dest + t + "\n" + rest
    requires j == |prefix| && a == j + 4 + |sep1| && b == a + |src| && c == b + |sep2|
    requires d == c + |dest| && y == d + |t|
    requires sep1 != [] && forall i :: 0 <= i < |sep1| ==> IsSpace(sep1[i])
    requires sep2 != [] && forall i :: 0 <= i < |sep2| ==> IsSpace(sep2[i])
    requires src != [] && forall i :: 0 <= i < |src| ==> !IsSpace(src[i])
    requires dest != [] && forall i :: 0 <= i < |dest| ==> !IsSpace(dest[i])
    requires dest[|dest| - 1] != '\\'
    requires forall i :: 0 <= i < |t| ==> IsSpaceOrBackslash(t[i])
    ensures CopyLineAt(s, j, a, b, c, d, y)
    ensures s[a..b] == src && s[c..d] == dest
  {
    assert s[j..j + 4] == "COPY";
    forall k | j + 4 <= k < a ensures IsSpace(s[k]) {
      assert s[k] == sep1[k - j - 4];
    }
    assert s[a..b] == src;
    forall k | a <= k < b ensures NonSpace(s[k]) {
      assert s[k] == src[k - a];
    }
    forall k | b <= k < c ensures IsSpace(s[k]) {
      assert s[k] == sep2[k - b];
    }
    assert s[c..d] == dest;
    forall k | c <= k < d ensures NonSpace(s[k]) {
      assert s[k] == dest[k - c];
    }
    assert s[d - 1] == dest[|dest| - 1];
    forall k | d <= k < y ensures IsSpaceOrBackslash(s[k]) {
      assert s[k] == t[k - d];
    }
    assert s[y] == '\n';
    AllInMeans(s, j + 4, a, IsSpace);
    AllInMeans(s, a, b, NonSpace);
    AllInMeans(s, b, c, IsSpace);
    AllInMeans(s, c, d, NonSpace);
    AllInMeans(s, d, y, IsSpaceOrBackslash);
  }

  /** The first copy line gives the first pair. */
  lemma CopyPairsLine(s: string, j: nat, a: nat, b: nat, c: nat, d: nat, y: nat,
                      src: string, dest: string)
    requires forall k :: 0 <= k < j ==> !OccursAt(s, k, "COPY")
    requires CopyLineAt(s, j, a, b, c, d, y) && s[a..b] == src && s[c..d] == dest
    ensures TailEnd(s, d).Some? && y < TailEnd(s, d).value &&
            CopyPairs(s, 0) == [(src, dest)] + CopyPairs(s, TailEnd(s, d).value)
  {
    AllInMeans(s, d, y, IsSpaceOrBackslash);
    TailReaches(s, d, y);
    CopyAtLine(s, j, a, b, c, d, y);
    CopyPairsSkip(s, 0, j);
    CopyPairsHit(s, j, (s[a..b], s[c..d], TailEnd(s, d).value));
  }

  lemma CopyPairsHit(s: string, j: nat, m: (string, string, nat))
    requires j < |s| && CopyAt(s, j) == Some(m)
    ensures CopyPairs(s, j) == [(m.0, m.1)] + CopyPairs(s, m.2)
  {
  }
}
