/** `DockerfileAnalyzer.generate_report` of the analyzer: the Markdown report of an
    analysis result, and the fact that the response parser reads the security score back
    from it. */
module AnalysisReport {
  import opened PyStr
  import opened Analyzer

  /** `DockerfileAnalyzer.generate_report`: the Markdown report, section by section. */
  function FormatReport(r: AnalysisResult): string {
    ScoresSection(r) + MetricsSection(r) + DetailsSection(r) + DockerfileSection(r)
  }

  const ScoresHeading: string := "\n## Dockerfile Analysis Report\n\n### Scores\n"

  /** A `- Label: n/100` line. */
  function ScoreLine(name: string, n: int): string {
    "- " + name + ":" + " " + IntToString(n) + "/100\n"
  }

  function ScoresSection(r: AnalysisResult): string {
    ScoresHeading +
    ScoreLine("Security Score", r.securityScore) +
    ScoreLine("Optimization Score", r.optimizationScore) + "\n"
  }

  function MetricsSection(r: AnalysisResult): string {
    "### Optimization Metrics\n" +
    "- Layer Count: " + IntToString(r.metrics.layerCount) + "\n" +
    "- Estimated Size: " + r.metrics.estimatedSize + "\n" +
    ScoreLine("Cache Efficiency", r.metrics.cacheEfficiency) +
    ScoreLine("Build Time Score", r.metrics.buildTimeScore) +
    ScoreLine("Maintainability Score", r.metrics.maintainabilityScore) + "\n"
  }

  function DetailsSection(r: AnalysisResult): string {
    "### Detailed Report\n" + r.detailedReport + "\n\n"
  }

  function DockerfileSection(r: AnalysisResult): string {
    "### Optimized Dockerfile\n```dockerfile\n" + r.optimizedDockerfile + "\n```\n"
  }

  // ---------------------------------------------------------------------------
  // Reading the report back

  /** A label that matches at `k` matches its first two characters there. */
  lemma {:induction false} LabelAtFirst(s: string, k: nat, name: string, ci: bool)
    requires |name| >= 2
    ensures LabelAt(s, k, name, ci) ==>
              k + 1 < |s| && CharMatches(s[k], name[0], ci) && CharMatches(s[k + 1], name[1], ci)
  {
    if LabelAt(s, k, name, ci) {
      var w := s[k..k + |name|];
      assert w[0] == s[k];
      assert LiteralMatches(w[1..], name[1..], ci);
      assert w[1..][0] == s[k + 1];
      assert name[1..][0] == name[1];
    }
  }

  /** The first two characters of `name` could match at `k` of `h`, as far as `h` goes. */
  predicate MayStart(h: string, k: nat, name: string, ci: bool)
    requires k < |h| && |name| >= 2
  {
    CharMatches(h[k], name[0], ci) && (k + 1 < |h| ==> CharMatches(h[k + 1], name[1], ci))
  }

  /** Where `s` starts with `head` and the first two characters of `name` match nowhere in
      it, the label starts nowhere in `head` (it may still start right after). */
  lemma {:induction false} NoLabelInHead(s: string, head: string, name: string, ci: bool)
    requires |name| >= 2 && |head| <= |s| && s[..|head|] == head
    requires forall k :: 0 <= k < |head| ==> !MayStart(head, k, name, ci)
    ensures forall k :: 0 <= k < |head| ==> !LabelAt(s, k, name, ci)
  {
    forall k | 0 <= k < |head| ensures !LabelAt(s, k, name, ci) {
      LabelAtFirst(s, k, name, ci);
      assert s[k] == s[..|head|][k] == head[k];
      if k + 1 < |head| {
        assert s[k + 1] == s[..|head|][k + 1] == head[k + 1];
      }
      assert !MayStart(head, k, name, ci);
    }
  }

  /** What precedes the security score's label in the report. */
  const SecurityHead: string := "\n## Dockerfile Analysis Report\n\n### Scores\n- "

  lemma {:induction false} SecurityHeadIs()
    ensures ScoresHeading + "- " == SecurityHead
  {
  }

  /** `S` occurs in the heading only in `Analysis` and `Scores`; the stretches without
      one come first. */
  lemma {:induction false} SecurityHeadStart()
    ensures forall k :: 0 <= k < 20 ==> !MayStart(SecurityHead, k, "Security Score", true)
  {
    forall k | 0 <= k < 20 ensures !MayStart(SecurityHead, k, "Security Score", true) {
      assert SecurityHead[k] in "\n## Dockerfile Analy";
    }
  }

  lemma {:induction false} SecurityHeadMiddle()
    ensures forall k :: 23 <= k < 36 ==> !MayStart(SecurityHead, k, "Security Score", true)
  {
    forall k | 23 <= k < 36 ensures !MayStart(SecurityHead, k, "Security Score", true) {
      assert SecurityHead[k] in " Report\n\n### ";
    }
  }

  lemma {:induction false} SecurityHeadEnd()
    ensures forall k :: 37 <= k < 41 || 42 <= k < 45 ==> !MayStart(SecurityHead, k, "Security Score", true)
  {
    forall k | 37 <= k < 41 || 42 <= k < 45 ensures !MayStart(SecurityHead, k, "Security Score", true) {
      assert SecurityHead[k] in "core\n- ";
    }
  }

  /** At the `s` and `S` of `Analysis` and `Scores` the next character is no `e`. */
  lemma {:induction false} SecurityHeadEss()
    ensures forall k :: 20 <= k < 23 || k == 36 || k == 41 ==> !MayStart(SecurityHead, k, "Security Score", true)
  {
    forall k | 20 <= k < 23 || k == 36 || k == 41 ensures !MayStart(SecurityHead, k, "Security Score", true) {
      assert SecurityHead[k + 1] in "is c\n";
    }
  }

  /** `Security Score` starts nowhere before its own line of the report. */
  lemma {:induction false} SecurityHeadFree()
    ensures forall k :: 0 <= k < |SecurityHead| ==> !MayStart(SecurityHead, k, "Security Score", true)
  {
    SecurityHeadStart();
    SecurityHeadMiddle();
    SecurityHeadEnd();
    SecurityHeadEss();
  }

  /** Where the pieces of a score line sit. */
  lemma {:induction false} ScoreLinePieces(name: string, n: nat)
    ensures var line := ScoreLine(name, n); var d := DigitString(n);
            |line| == 2 + |name| + 2 + |d| + 5 &&
            line[..2] == "- " &&
            line[2..2 + |name|] == name &&
            line[2..4 + |name|] == name + ":" + " " &&
            line[4 + |name|..4 + |name| + |d|] == d &&
            line[4 + |name| + |d|] == '/'
  {
    var line := ScoreLine(name, n);
    var d := DigitString(n);
    FieldPieces(line, "- ", name, " ", d, "/100\n");
    assert line[..2] == "- ";
  }

  lemma {:induction false} PrefixOfAppend(a: string, b: string, n: nat)
    requires n <= |a|
    ensures (a + b)[..n] == a[..n]
  {
  }

  /** The report starts with the heading and the security line. */
  lemma {:induction false} ReportStart(r: AnalysisResult)
    ensures var t := ScoresHeading + ScoreLine("Security Score", r.securityScore);
            |t| <= |FormatReport(r)| && FormatReport(r)[..|t|] == t
  {
    var t := ScoresHeading + ScoreLine("Security Score", r.securityScore);
    var n := |t|;
    var sc := ScoresSection(r);
    var m := MetricsSection(r);
    var dt := DetailsSection(r);
    PrefixOfAppend(sc + m + dt, DockerfileSection(r), n);
    PrefixOfAppend(sc + m, dt, n);
    PrefixOfAppend(sc, m, n);
    PrefixOfAppend(t + ScoreLine("Optimization Score", r.optimizationScore), "\n", n);
    PrefixOfAppend(t, ScoreLine("Optimization Score", r.optimizationScore), n);
  }

  /** Slices inside a prefix `t` of `s` are slices of `t`. */
  lemma {:induction false} PrefixSlice(s: string, t: string, a: nat, b: nat)
    requires |t| <= |s| && s[..|t|] == t && a <= b <= |t|
    ensures s[a..b] == t[a..b]
  {
    forall i | 0 <= i < b - a ensures s[a..b][i] == t[a..b][i] {
      assert s[a + i] == s[..|t|][a + i];
    }
  }

  lemma {:induction false} OffsetSlice(h: string, line: string, a: nat, b: nat)
    requires a <= b <= |line|
    ensures (h + line)[|h| + a..|h| + b] == line[a..b]
  {
  }

  lemma {:induction false} PrefixThrough(h: string, line: string, m: nat)
    requires m <= |line|
    ensures (h + line)[..|h| + m] == h + line[..m]
  {
  }

  /** A score line `line` after `h` at the start of `s`: where its label, value and the
      `/` after the value sit in `s`. */
  lemma {:induction false} LineAt(s: string, h: string, line: string, name: string, d: string)
    requires |h| + |line| <= |s| && s[..|h| + |line|] == h + line
    requires |line| == 4 + |name| + |d| + 5 && line[..2] == "- " && line[2..2 + |name|] == name
    requires line[2..4 + |name|] == name + ":" + " " && line[4 + |name|..4 + |name| + |d|] == d
    requires line[4 + |name| + |d|] == '/'
    ensures var j := |h| + 2; var e := j + |name| + 2;
            e + |d| < |s| && s[..j] == h + "- " && s[j..j + |name|] == name &&
            s[j..e] == name + ":" + " " && s[e..e + |d|] == d && s[e + |d|] == '/'
  {
    var t := h + line;
    var j := |h| + 2;
    var e := j + |name| + 2;
    PrefixSlice(s, t, 0, j);
    PrefixThrough(h, line, 2);
    assert s[..j] == s[0..j];
    PrefixSlice(s, t, j, j + |name|);
    OffsetSlice(h, line, 2, 2 + |name|);
    PrefixSlice(s, t, j, e);
    OffsetSlice(h, line, 2, 4 + |name|);
    PrefixSlice(s, t, e, e + |d|);
    OffsetSlice(h, line, 4 + |name|, 4 + |name| + |d|);
    assert s[e + |d|] == s[..|t|][e + |d|] == t[e + |d|];
  }

  /** An integer read back from a score line `line` after a head in which the label does
      not start. */
  lemma {:induction false} ScoreReadBack(s: string, h: string, line: string, name: string, n: nat)
    requires |h| + |line| <= |s| && s[..|h| + |line|] == h + line
    requires |line| == 4 + |name| + |DigitString(n)| + 5 && line[..2] == "- " && line[2..2 + |name|] == name
    requires line[2..4 + |name|] == name + ":" + " "
    requires line[4 + |name|..4 + |name| + |DigitString(n)|] == DigitString(n)
    requires line[4 + |name| + |DigitString(n)|] == '/'
    requires |name| >= 2 && forall k :: 0 <= k < |h + "- "| ==> !MayStart(h + "- ", k, name, true)
    ensures IntLabel(s, name) == n
  {
    var d := DigitString(n);
    var e := |h| + 2 + |name| + 2;
    LineAt(s, h, line, name, d);
    NoLabelInHead(s, h + "- ", name, true);
    assert d[0] in d;
    DigitsEnd(s, e, d);
    FieldCaptured(s, |h| + 2, name, true, " ", d, Digits);
    DigitsRoundTrip(n);
  }

  /** Reading the security score back from the report gives the score. */
  lemma {:induction false} SecurityScoreReadBack(r: AnalysisResult)
    requires r.securityScore >= 0
    ensures IntLabel(FormatReport(r), "Security Score") == r.securityScore
  {
    var s := FormatReport(r);
    ReportStart(r);
    ScoreLinePieces("Security Score", r.securityScore);
    SecurityHeadIs();
    SecurityHeadFree();
    ScoreReadBack(s, ScoresHeading, ScoreLine("Security Score", r.securityScore), "Security Score", r.securityScore);
  }
}
