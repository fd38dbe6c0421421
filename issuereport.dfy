/** `DockerfileAnalyzer.generate_report` of the optimizer: the scores and metrics, then
    the issues stably sorted by severity rank and category, with a severity heading
    wherever the raw severity changes. */
module IssueReport {
  import opened PyStr

  datatype Issue = Issue(
    severity: string,
    category: string,
    description: string,
    recommendation: string,
    lineNumber: Option<int>)

  datatype OptimizationMetrics = OptimizationMetrics(
    layerCount: int,
    estimatedSize: string,
    cacheEfficiency: int,
    buildTimeScore: int,
    maintainabilityScore: int)

  datatype AnalysisResult = AnalysisResult(
    issues: seq<Issue>,
    optimizedDockerfile: string,
    securityScore: int,
    optimizationScore: int,
    metrics: OptimizationMetrics)

  /** `severity_order.get(severity.lower(), 4)`. */
  function Rank(severity: string): (r: nat)
    ensures 1 <= r <= 4
    ensures r == 1 <==> Lower(severity) == "high"
    ensures r == 2 <==> Lower(severity) == "medium"
    ensures r == 3 <==> Lower(severity) == "low"
  {
    var s := Lower(severity);
    if s == "high" then 1 else if s == "medium" then 2 else if s == "low" then 3 else 4
  }

  /** The sort key `(rank, category)`, compared as a Python tuple. */
  predicate KeyLess(a: Issue, b: Issue) {
    Rank(a.severity) < Rank(b.severity) ||
    (Rank(a.severity) == Rank(b.severity) && Less(a.category, b.category))
  }

  function KeyOf(x: Issue): (nat, string) {
    (Rank(x.severity), x.category)
  }

  lemma KeyLessIrreflexive(a: Issue, b: Issue)
    requires KeyOf(a) == KeyOf(b)
    ensures !KeyLess(a, b)
  {
    LessIrreflexive(a.category);
  }

  lemma KeyLessAsymmetric(a: Issue, b: Issue)
    requires KeyLess(a, b)
    ensures !KeyLess(b, a)
  {
    if Rank(a.severity) == Rank(b.severity) { LessAsymmetric(a.category, b.category); }
  }

  /** `a <= b` and `b < c` give `a < c`. */
  lemma KeyLeqLess(a: Issue, b: Issue, c: Issue)
    requires !KeyLess(b, a) && KeyLess(b, c)
    ensures KeyLess(a, c)
  {
    if Rank(a.severity) == Rank(b.severity) {
      if a.category != b.category { LessTotal(a.category, b.category); }
      if Rank(b.severity) == Rank(c.severity) && a.category != b.category {
        LessTransitive(a.category, b.category, c.category);
      }
    }
  }

  /** Non-decreasing in the sort key. */
  ghost predicate SortedByKey(xs: seq<Issue>) {
    forall i, j :: 0 <= i < j < |xs| ==> !KeyLess(xs[j], xs[i])
  }

  /** Puts `x` before the first element whose key is not smaller than its own. */
  function InsertIssue(x: Issue, ys: seq<Issue>): (r: seq<Issue>)
    ensures multiset(r) == multiset(ys) + multiset{x}
  {
    if ys == [] then [x]
    else if KeyLess(ys[0], x) then
      assert ys == [ys[0]] + ys[1..];
      [ys[0]] + InsertIssue(x, ys[1..])
    else
      [x] + ys
  }

  /** Putting in front an element no later element is smaller than keeps the order. */
  lemma PrependSorted(y: Issue, rest: seq<Issue>)
    requires SortedByKey(rest)
    requires forall k :: 0 <= k < |rest| ==> !KeyLess(rest[k], y)
    ensures SortedByKey([y] + rest)
  {
    forall i, j | 0 <= i < j < |[y] + rest| ensures !KeyLess(([y] + rest)[j], ([y] + rest)[i]) {
      if i == 0 {
        assert ([y] + rest)[j] == rest[j - 1];
      } else {
        assert ([y] + rest)[j] == rest[j - 1] && ([y] + rest)[i] == rest[i - 1];
      }
    }
  }

  lemma {:induction false} InsertIssueSorted(x: Issue, ys: seq<Issue>)
    requires SortedByKey(ys)
    ensures SortedByKey(InsertIssue(x, ys))
  {
    if ys == [] {
    } else if KeyLess(ys[0], x) {
      var rest := InsertIssue(x, ys[1..]);
      assert SortedByKey(ys[1..]) by {
        forall i, j | 0 <= i < j < |ys[1..]| ensures !KeyLess(ys[1..][j], ys[1..][i]) {
          assert ys[1..][j] == ys[j + 1] && ys[1..][i] == ys[i + 1];
        }
      }
      InsertIssueSorted(x, ys[1..]);
      forall k | 0 <= k < |rest| ensures !KeyLess(rest[k], ys[0]) {
        assert rest[k] in multiset(rest);
        if rest[k] == x {
          KeyLessAsymmetric(ys[0], x);
        } else {
          assert rest[k] in multiset(ys[1..]);
          var m :| 0 <= m < |ys[1..]| && ys[1..][m] == rest[k];
          assert ys[m + 1] == rest[k];
        }
      }
      PrependSorted(ys[0], rest);
    } else {
      forall k | 0 <= k < |ys| ensures !KeyLess(ys[k], x) {
        if k > 0 && KeyLess(ys[k], x) { KeyLeqLess(ys[0], ys[k], x); }
      }
      PrependSorted(x, ys);
    }
  }

  /** Python's `sorted(issues, key=lambda x: (rank, category))`: stable insertion sort. */
  function SortIssues(xs: seq<Issue>): (r: seq<Issue>)
    ensures multiset(r) == multiset(xs)
    ensures SortedByKey(r)
  {
    if xs == [] then []
    else
      assert xs == [xs[0]] + xs[1..];
      InsertIssueSorted(xs[0], SortIssues(xs[1..]));
      InsertIssue(xs[0], SortIssues(xs[1..]))
  }

  /** The issues with sort key `k`, in their order. */
  function WithKey(xs: seq<Issue>, k: (nat, string)): seq<Issue> {
    if xs == [] then [] else Keyed(xs[0], k) + WithKey(xs[1..], k)
  }

  /** The part of `[x]` with key `k`. */
  function Keyed(x: Issue, k: (nat, string)): seq<Issue> {
    if KeyOf(x) == k then [x] else []
  }

  lemma WithKeyCons(y: Issue, rest: seq<Issue>, k: (nat, string))
    ensures WithKey([y] + rest, k) == Keyed(y, k) + WithKey(rest, k)
  {
    assert ([y] + rest)[1..] == rest;
  }

  /** Two issues of which one sorts strictly before the other never share a key. */
  lemma KeyedApart(a: Issue, b: Issue, k: (nat, string))
    requires KeyLess(a, b)
    ensures Keyed(a, k) == [] || Keyed(b, k) == []
  {
    if KeyOf(a) == KeyOf(b) { KeyLessIrreflexive(a, b); }
  }

  /** Two prefixes of which one is empty can be swapped. */
  lemma SwapEmpty(a: seq<Issue>, b: seq<Issue>, w: seq<Issue>)
    requires a == [] || b == []
    ensures a + (b + w) == b + (a + w)
  {
    if a == [] {
      assert a + (b + w) == b + w && a + w == w;
    } else {
      assert b + w == w && b + (a + w) == a + w;
    }
  }

  /** The step of `InsertIssueStable` where `x` moves past the first element. */
  lemma InsertIssuePastHead(x: Issue, ys: seq<Issue>, k: (nat, string))
    requires ys != [] && KeyLess(ys[0], x)
    requires WithKey(InsertIssue(x, ys[1..]), k) == Keyed(x, k) + WithKey(ys[1..], k)
    ensures WithKey(InsertIssue(x, ys), k) == Keyed(x, k) + WithKey(ys, k)
  {
    var rest := InsertIssue(x, ys[1..]);
    assert InsertIssue(x, ys) == [ys[0]] + rest;
    WithKeyCons(ys[0], rest, k);
    WithKeyCons(ys[0], ys[1..], k);
    assert [ys[0]] + ys[1..] == ys;
    KeyedApart(ys[0], x, k);
    SwapEmpty(Keyed(ys[0], k), Keyed(x, k), WithKey(ys[1..], k));
  }

  lemma {:induction false} InsertIssueStable(x: Issue, ys: seq<Issue>, k: (nat, string))
    ensures WithKey(InsertIssue(x, ys), k) == Keyed(x, k) + WithKey(ys, k)
  {
    if ys == [] {
      WithKeyCons(x, [], k);
    } else if KeyLess(ys[0], x) {
      InsertIssueStable(x, ys[1..], k);
      InsertIssuePastHead(x, ys, k);
    } else {
      WithKeyCons(x, ys, k);
    }
  }

  /** The sort is stable: issues with equal keys keep their original relative order. */
  lemma {:induction false} SortIssuesStable(xs: seq<Issue>, k: (nat, string))
    ensures WithKey(SortIssues(xs), k) == WithKey(xs, k)
  {
    if xs != [] {
      SortIssuesStable(xs[1..], k);
      InsertIssueStable(xs[0], SortIssues(xs[1..]), k);
    }
  }

  /** Scores and metrics, up to the "Issues Found" heading. */
  function ReportHead(result: AnalysisResult): string {
    "# Dockerfile Analysis Report\n\n" +
    "## Overall Scores\n" +
    "Security Score: " + IntToString(result.securityScore) + "/100\n" +
    "Optimization Score: " + IntToString(result.optimizationScore) + "/100\n\n" +
    "## Optimization Metrics\n" +
    "- Layer Count: " + IntToString(result.metrics.layerCount) + "\n" +
    "- Estimated Image Size: " + result.metrics.estimatedSize + "\n" +
    "- Cache Efficiency: " + IntToString(result.metrics.cacheEfficiency) + "/100\n" +
    "- Build Time Score: " + IntToString(result.metrics.buildTimeScore) + "/100\n" +
    "- Maintainability Score: " + IntToString(result.metrics.maintainabilityScore) + "/100\n\n" +
    "## Issues Found\n\n"
  }

  function SeverityHeading(severity: string): string {
    "### " + Upper(severity) + " Severity Issues\n\n"
  }

  /** `if issue.line_number:` — neither `None` nor 0. */
  predicate ShowsLineNumber(x: Issue) {
    x.lineNumber.Some? && x.lineNumber.value != 0
  }

  function IssueBody(x: Issue): string {
    "**" + x.category + "**\n" +
    "- Description: " + x.description + "\n" +
    "- Recommendation: " + x.recommendation + "\n" +
    (if ShowsLineNumber(x) then "- Line Number: " + IntToString(x.lineNumber.value) + "\n" else "") +
    "\n"
  }

  /** An issue's text, with the severity heading in front when it opens a group. */
  function IssueBlock(x: Issue, opens: bool): string {
    (if opens then SeverityHeading(x.severity) else "") + IssueBody(x)
  }

  /** Issue `i` opens a severity group: it is the first, or its raw severity differs
      from that of the issue before it. */
  predicate OpensGroup(xs: seq<Issue>, i: nat)
    requires i < |xs|
  {
    i == 0 || xs[i].severity != xs[i - 1].severity
  }

  /** The text for the first `n` issues: each issue's body, preceded by a heading exactly
      where it opens a group. */
  function Blocks(xs: seq<Issue>, n: nat): string
    requires n <= |xs|
  {
    if n == 0 then ""
    else
      Blocks(xs, n - 1) + IssueBlock(xs[n - 1], OpensGroup(xs, n - 1))
  }

  lemma AppendBlock(head: string, xs: seq<Issue>, i: nat, report: string, text: string)
    requires i < |xs|
    requires report == head + Blocks(xs, i)
    requires text == IssueBlock(xs[i], OpensGroup(xs, i))
    ensures report + text == head + Blocks(xs, i + 1)
  {
    assert Blocks(xs, i + 1) == Blocks(xs, i) + text;
    AppendAssoc(head, Blocks(xs, i), text);
  }

  /** One pass of the issue loop: a heading when the raw severity differs from
      `current`, then the issue's lines. */
  method RenderIssue(issue: Issue, current: Option<string>) returns (text: string, next: Option<string>)
    ensures next == Some(issue.severity)
    ensures text == IssueBlock(issue, current != Some(issue.severity))
  {
    next := current;
    text := "";
    if current != Some(issue.severity) {
      next := Some(issue.severity);
      text := "### " + Upper(issue.severity) + " Severity Issues\n\n";
    }
    var lineNumber := "";
    if issue.lineNumber.Some? && issue.lineNumber.value != 0 {
      lineNumber := "- Line Number: " + IntToString(issue.lineNumber.value) + "\n";
    }
    text := text + ("**" + issue.category + "**\n" +
      "- Description: " + issue.description + "\n" +
      "- Recommendation: " + issue.recommendation + "\n" +
      lineNumber + "\n");
  }

  /** `DockerfileAnalyzer.generate_report`, with its `current_severity` loop. */
  method GenerateReport(result: AnalysisResult) returns (report: string)
    ensures var sorted := SortIssues(result.issues);
            report == ReportHead(result) + Blocks(sorted, |sorted|)
  {
    var head := ReportHead(result);
    report := head;
    var sorted := SortIssues(result.issues);
    var current: Option<string> := None;
    var i := 0;
    while i < |sorted|
      invariant 0 <= i <= |sorted|
      invariant report == head + Blocks(sorted, i)
      invariant current == if i == 0 then None else Some(sorted[i - 1].severity)
    {
      assert (current != Some(sorted[i].severity)) == OpensGroup(sorted, i);
      var text;
      text, current := RenderIssue(sorted[i], current);
      AppendBlock(head, sorted, i, report, text);
      report := report + text;
      i := i + 1;
    }
  }
}
