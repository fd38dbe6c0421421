/** The analyzer's regex fallback parser (`_extract_data_from_response`) and its fixed
    report layout (`generate_report`). Each pattern is an explicit scanner that takes the
    same backtracking decisions as Python's `re.search`. */
module Analyzer {
  import opened PyStr
  import opened Patterns

  datatype OptimizationMetrics = OptimizationMetrics(
    layerCount: int,
    estimatedSize: string,
    cacheEfficiency: int,
    buildTimeScore: int,
    maintainabilityScore: int)

  datatype AnalysisResult = AnalysisResult(
    securityScore: int,
    optimizationScore: int,
    metrics: OptimizationMetrics,
    detailedReport: string,
    optimizedDockerfile: string)

  /** The `data` dict before any pattern is tried. */
  const Defaults: AnalysisResult :=
    AnalysisResult(0, 0, OptimizationMetrics(0, "unknown", 0, 0, 0), "", "")

  // ---------------------------------------------------------------------------
  // Matching a label

  /** `re.IGNORECASE` on one character of a pattern literal: equal after lower-casing, or
      one of the extra equivalences Python's regex engine adds for `i`, `s` and `k`. */
  predicate CharMatchesCI(c: char, l: char) {
    LowerChar(c) == LowerChar(l) ||
    (LowerChar(l) == 'i' && (c == '\U{130}' || c == '\U{131}')) ||
    (LowerChar(l) == 's' && c == '\U{17F}') ||
    (LowerChar(l) == 'k' && c == '\U{212A}')
  }

  predicate CharMatches(c: char, l: char, ci: bool) {
    if ci then CharMatchesCI(c, l) else c == l
  }

  /** Each character of `t` matches the pattern literal's character in the same place. */
  predicate LiteralMatches(t: string, lit: string, ci: bool) {
    |t| == |lit| && (t == [] || (CharMatches(t[0], lit[0], ci) && LiteralMatches(t[1..], lit[1..], ci)))
  }

  /** The literal label `name` matches `s` at `j`, case-insensitively when `ci`. */
  predicate LabelAt(s: string, j: nat, name: string, ci: bool) {
    j + |name| <= |s| && LiteralMatches(s[j..j + |name|], name, ci)
  }

  lemma {:induction false} LiteralMatchesSelf(t: string, ci: bool)
    ensures LiteralMatches(t, t, ci)
    decreases |t|
  {
    if t != [] { LiteralMatchesSelf(t[1..], ci); }
  }

  lemma {:induction false} LabelAtSelf(s: string, j: nat, name: string, ci: bool)
    requires j + |name| <= |s| && s[j..j + |name|] == name
    ensures LabelAt(s, j, name, ci)
  {
    LiteralMatchesSelf(name, ci);
  }

  // ---------------------------------------------------------------------------
  // What follows the label: `:?\s*` and then one of four groups

  /** The group shapes used after a label:
      `(\d+)`, `([^\n]+)`, `(.+?)(?=stop|$)` and `(.+)$`,
      the last two with `re.DOTALL`. */
  datatype Tail = Digits | Line | UntilStop(stop: string) | ToEnd

  /** The group can start at `k`: its first character is there and of the right kind. */
  predicate Opens(tail: Tail, s: string, k: nat) {
    k < |s| &&
    match tail
      case Digits => IsDigit(s[k])
      case Line => s[k] != '\n'
      case _ => true
  }

  /** The greedy `\s*` ending at `k` gives back characters one at a time: the first
      position, going down from `k` to `q`, where the group can start. */
  function LastOpen(tail: Tail, s: string, q: nat, k: nat): (r: Option<nat>)
    requires q <= k <= |s|
    ensures r.Some? ==> q <= r.value <= k && Opens(tail, s, r.value)
    ensures r.Some? ==> forall t :: r.value < t <= k ==> !Opens(tail, s, t)
    ensures r.None? ==> forall t :: q <= t <= k ==> !Opens(tail, s, t)
    decreases k
  {
    if Opens(tail, s, k) then Some(k)
    else if k == q then None
    else LastOpen(tail, s, q, k - 1)
  }

  /** Start of the group after a label ending at `p`: the greedy `:?` is tried with the
      colon first and, if that fails, without it. */
  function GroupStart(tail: Tail, s: string, p: nat): (r: Option<nat>)
    requires p <= |s|
    ensures r.Some? ==> p <= r.value < |s| && Opens(tail, s, r.value)
    ensures r.Some? ==> forall k :: p <= k < r.value ==> IsSpace(s[k]) || (k == p && s[k] == ':')
  {
    SpaceRunEndSpaces(s, p);
    var colon := if p < |s| && s[p] == ':' then
        SpaceRunEndSpaces(s, p + 1);
        LastOpen(tail, s, p + 1, SpaceRunEnd(s, p + 1))
      else None;
    if colon.Some? then colon else LastOpen(tail, s, p, SpaceRunEnd(s, p))
  }

  /** End of the maximal run of ASCII digits starting at `q`. */
  function DigitRunEnd(s: string, q: nat): (e: nat)
    requires q <= |s|
    ensures q <= e <= |s|
    ensures forall k :: q <= k < e ==> IsDigit(s[k])
    ensures e == |s| || !IsDigit(s[e])
    decreases |s| - q
  {
    if q < |s| && IsDigit(s[q]) then DigitRunEnd(s, q + 1) else q
  }

  /** End of the line that contains `q`: the first newline at or after `q`, or the end. */
  function LineEnd(s: string, q: nat): (e: nat)
    requires q <= |s|
    ensures q <= e <= |s|
    ensures forall k :: q <= k < e ==> s[k] != '\n'
    ensures e == |s| || s[e] == '\n'
    decreases |s| - q
  {
    if q < |s| && s[q] != '\n' then LineEnd(s, q + 1) else q
  }

  const StopLabel: string := "Optimized Dockerfile:"

  /** The lookahead `(?=stop|$)`, where `$` (without `re.MULTILINE`) holds at the end
      and just before a final newline. */
  predicate StopAt(s: string, t: nat, stop: string) {
    OccursAt(s, t, stop) || t == |s| || (t + 1 == |s| && s[t] == '\n')
  }

  /** The lazy group's end: the first position from `t` on where the lookahead holds. */
  function StopEnd(s: string, t: nat, stop: string): (e: nat)
    requires t <= |s|
    ensures t <= e <= |s| && StopAt(s, e, stop)
    ensures forall u :: t <= u < e ==> !StopAt(s, u, stop)
    decreases |s| - t
  {
    if StopAt(s, t, stop) then t else StopEnd(s, t + 1, stop)
  }

  /** End of the group that starts at `g`. */
  function GroupEnd(tail: Tail, s: string, g: nat): (e: nat)
    requires Opens(tail, s, g)
    ensures g < e <= |s|
  {
    match tail
      case Digits => DigitRunEnd(s, g)
      case Line => LineEnd(s, g)
      case UntilStop(stop) => StopEnd(s, g + 1, stop)
      case ToEnd => |s|
  }

  /** A captured group, `s[start..end]`. */
  datatype Span = Span(start: nat, end: nat)

  /** The group, as start and end, that the pattern captures after a label ending at `p`;
      `None` when the pattern does not match there. */
  function GroupAt(tail: Tail, s: string, p: nat): (r: Option<Span>)
    requires p <= |s|
    ensures r.Some? ==> p <= r.value.start < r.value.end <= |s|
  {
    match GroupStart(tail, s, p)
      case None => None
      case Some(g) => Some(Span(g, GroupEnd(tail, s, g)))
  }

  /** What each group shape captures: after the optional colon and whitespace, a maximal
      digit run, the rest of a line, text up to the first stop, or everything. */
  lemma {:induction false} GroupAtShape(tail: Tail, s: string, p: nat)
    requires p <= |s| && GroupAt(tail, s, p).Some?
    ensures var r := GroupAt(tail, s, p).value;
            forall k :: p <= k < r.start ==> IsSpace(s[k]) || (k == p && s[k] == ':')
    ensures var r := GroupAt(tail, s, p).value;
            tail == Digits ==>
              (forall k :: r.start <= k < r.end ==> IsDigit(s[k])) &&
              (r.end == |s| || !IsDigit(s[r.end]))
    ensures var r := GroupAt(tail, s, p).value;
            tail == Line ==>
              (forall k :: r.start <= k < r.end ==> s[k] != '\n') &&
              (r.end == |s| || s[r.end] == '\n')
    ensures var r := GroupAt(tail, s, p).value;
            tail.UntilStop? ==>
              StopAt(s, r.end, tail.stop) && forall u :: r.start < u < r.end ==> !StopAt(s, u, tail.stop)
    ensures var r := GroupAt(tail, s, p).value;
            tail == ToEnd ==> r.end == |s|
  {
  }

  /** The whole pattern `name:?\s*(group)` matches at `j`. */
  predicate MatchAt(s: string, j: nat, name: string, ci: bool, tail: Tail) {
    LabelAt(s, j, name, ci) && GroupAt(tail, s, j + |name|).Some?
  }

  /** `re.search`: the leftmost position from `j` on where the pattern matches. */
  function Search(s: string, name: string, ci: bool, tail: Tail, j: nat): (r: Option<nat>)
    requires j <= |s|
    ensures r.Some? ==> j <= r.value && MatchAt(s, r.value, name, ci, tail)
    ensures forall k :: j <= k <= |s| && (r.None? || k < r.value) ==> !MatchAt(s, k, name, ci, tail)
    decreases |s| - j
  {
    if MatchAt(s, j, name, ci, tail) then Some(j)
    else if j == |s| then None
    else Search(s, name, ci, tail, j + 1)
  }

  /** The text of the group after a label ending at `p`, when the rest of the pattern
      matches there. */
  function GroupText(tail: Tail, s: string, p: nat): (r: Option<string>)
    requires p <= |s|
    ensures r.Some? ==> r.value != []
    ensures r.Some? && tail == Digits ==> forall c :: c in r.value ==> IsDigit(c)
    ensures r.Some? && tail == Line ==> '\n' !in r.value
  {
    match GroupAt(tail, s, p)
      case None => None
      case Some(g) =>
        GroupChars(tail, s, p);
        Some(s[g.start..g.end])
  }

  /** The characters a digit group or a line group captures. */
  lemma {:induction false} GroupChars(tail: Tail, s: string, p: nat)
    requires p <= |s| && GroupAt(tail, s, p).Some?
    ensures var r := GroupAt(tail, s, p).value;
            tail == Digits ==> forall c :: c in s[r.start..r.end] ==> IsDigit(c)
    ensures var r := GroupAt(tail, s, p).value;
            tail == Line ==> '\n' !in s[r.start..r.end]
  {
    var r := GroupAt(tail, s, p).value;
    GroupAtShape(tail, s, p);
    forall c | c in s[r.start..r.end] ensures exists k :: r.start <= k < r.end && s[k] == c {
      var i :| 0 <= i < r.end - r.start && s[r.start..r.end][i] == c;
      assert s[r.start + i] == c;
    }
  }

  /** `match.group(1)` of `re.search(name + ":?\s*" + group, s)`, or `None` without a match. */
  function Capture(s: string, name: string, ci: bool, tail: Tail): Option<string> {
    var m := Search(s, name, ci, tail, 0);
    if m.None? then None else GroupText(tail, s, m.value + |name|)
  }

  /** A capture is never empty; a digit group holds only ASCII digits and a line group
      no newline. */
  lemma {:induction false} CaptureShape(s: string, name: string, ci: bool, tail: Tail)
    ensures var r := Capture(s, name, ci, tail);
            r.Some? ==> r.value != [] &&
                        (tail == Digits ==> forall c :: c in r.value ==> IsDigit(c)) &&
                        (tail == Line ==> '\n' !in r.value)
  {
  }

  /** Without the label anywhere there is no match and so no capture. */
  lemma {:induction false} NoLabelNoCapture(s: string, name: string, ci: bool, tail: Tail)
    requires forall k :: 0 <= k <= |s| ==> !LabelAt(s, k, name, ci)
    ensures Capture(s, name, ci, tail) == None
  {
  }


  // ---------------------------------------------------------------------------
  // The fields

  /** An integer field: `int(group)` of its first case-insensitive match, else 0. */
  function IntLabel(s: string, name: string): (n: nat)
    ensures Capture(s, name, true, Digits).None? ==> n == 0
  {
    match Capture(s, name, true, Digits)
      case Some(d) => CaptureShape(s, name, true, Digits); DigitsValue(d)
      case None => 0
  }

  const SizeLabel: string := "Estimated Size"

  /** `estimated_size`: the stripped group of its first case-insensitive match, else
      "unknown". */
  function SizeText(s: string): (r: string)
    ensures Capture(s, SizeLabel, true, Line).None? ==> r == "unknown"
    ensures Capture(s, SizeLabel, true, Line).Some? ==> '\n' !in r
  {
    match Capture(s, SizeLabel, true, Line)
      case Some(t) =>
        CaptureShape(s, SizeLabel, true, Line);
        assert forall c :: c in Strip(t) ==> c in t;
        Strip(t)
      case None => "unknown"
  }

  const ReportLabel: string := "Detailed Report"
  const DockerfileLabel: string := "Optimized Dockerfile"

  /** A text field: the stripped group of the first case-sensitive match, else "". */
  function TextLabel(s: string, name: string, tail: Tail): (r: string)
    ensures Capture(s, name, false, tail).None? ==> r == ""
    ensures r == [] || (!IsSpace(r[0]) && !IsSpace(r[|r| - 1]))
  {
    match Capture(s, name, false, tail)
      case Some(t) => Strip(t)
      case None => ""
  }

  /** What `_extract_data_from_response` returns, field by field. */
  function Parse(response: string): AnalysisResult {
    AnalysisResult(
      IntLabel(response, "Security Score"),
      IntLabel(response, "Optimization Score"),
      OptimizationMetrics(
        IntLabel(response, "Layer Count"),
        SizeText(response),
        IntLabel(response, "Cache Efficiency"),
        IntLabel(response, "Build Time Score"),
        IntLabel(response, "Maintainability Score")),
      TextLabel(response, ReportLabel, UntilStop(StopLabel)),
      TextLabel(response, DockerfileLabel, ToEnd))
  }

  // ---------------------------------------------------------------------------
  // The `patterns` loop

  /** The keys of the `patterns` dict, in its order. */
  datatype Key =
    SecurityScore | OptimizationScore | LayerCount | EstimatedSize |
    CacheEfficiency | BuildTimeScore | MaintainabilityScore

  const PatternKeys: seq<Key> := [
    SecurityScore, OptimizationScore, LayerCount, EstimatedSize,
    CacheEfficiency, BuildTimeScore, MaintainabilityScore]

  /** The label each key's pattern searches for. */
  function KeyLabel(key: Key): string {
    match key
      case SecurityScore => "Security Score"
      case OptimizationScore => "Optimization Score"
      case LayerCount => "Layer Count"
      case EstimatedSize => SizeLabel
      case CacheEfficiency => "Cache Efficiency"
      case BuildTimeScore => "Build Time Score"
      case MaintainabilityScore => "Maintainability Score"
  }

  function KeyTail(key: Key): Tail {
    if key == EstimatedSize then Line else Digits
  }

  /** The keys that live inside `optimization_metrics`. */
  predicate IsMetricKey(key: Key) {
    !(key == SecurityScore || key == OptimizationScore)
  }

  /** The value under one key of the `data` dict. */
  datatype FieldValue = Number(n: int) | Text(t: string)

  function Get(data: AnalysisResult, key: Key): FieldValue {
    match key
      case SecurityScore => Number(data.securityScore)
      case OptimizationScore => Number(data.optimizationScore)
      case LayerCount => Number(data.metrics.layerCount)
      case EstimatedSize => Text(data.metrics.estimatedSize)
      case CacheEfficiency => Number(data.metrics.cacheEfficiency)
      case BuildTimeScore => Number(data.metrics.buildTimeScore)
      case MaintainabilityScore => Number(data.metrics.maintainabilityScore)
  }

  /** Two results that agree on every key and on the two text fields are equal. */
  lemma {:induction false} SameFields(a: AnalysisResult, b: AnalysisResult)
    requires forall key :: Get(a, key) == Get(b, key)
    requires a.detailedReport == b.detailedReport && a.optimizedDockerfile == b.optimizedDockerfile
    ensures a == b
  {
    assert Get(a, SecurityScore) == Get(b, SecurityScore);
    assert Get(a, OptimizationScore) == Get(b, OptimizationScore);
    assert Get(a, LayerCount) == Get(b, LayerCount);
    assert Get(a, EstimatedSize) == Get(b, EstimatedSize);
    assert Get(a, CacheEfficiency) == Get(b, CacheEfficiency);
    assert Get(a, BuildTimeScore) == Get(b, BuildTimeScore);
    assert Get(a, MaintainabilityScore) == Get(b, MaintainabilityScore);
  }

  /** The value a match stores: the stripped text for the size, `int(group)` otherwise. */
  function Stored(key: Key, group: string): FieldValue
    requires key != EstimatedSize ==> forall c :: c in group ==> IsDigit(c)
  {
    if key == EstimatedSize then Text(Strip(group)) else Number(DigitsValue(group))
  }

  /** `data["optimization_metrics"][key] = n`. */
  function SetMetric(m: OptimizationMetrics, key: Key, n: int): OptimizationMetrics
    requires IsMetricKey(key) && key != EstimatedSize
  {
    match key
      case LayerCount => m.(layerCount := n)
      case CacheEfficiency => m.(cacheEfficiency := n)
      case BuildTimeScore => m.(buildTimeScore := n)
      case MaintainabilityScore => m.(maintainabilityScore := n)
  }

  /** `data[key] = n` for the two top-level scores. */
  function SetScore(data: AnalysisResult, key: Key, n: int): AnalysisResult
    requires !IsMetricKey(key)
  {
    if key == SecurityScore then data.(securityScore := n) else data.(optimizationScore := n)
  }

  /** One successful match stored in `data`: the key's own field takes the value and
      nothing else changes; metric keys stay inside `optimization_metrics` and the two
      scores outside it. */
  function Store(data: AnalysisResult, key: Key, v: FieldValue): (r: AnalysisResult)
    requires v.Text? <==> key == EstimatedSize
    ensures Get(r, key) == v
    ensures forall k :: k != key ==> Get(r, k) == Get(data, k)
    ensures r.detailedReport == data.detailedReport && r.optimizedDockerfile == data.optimizedDockerfile
    ensures IsMetricKey(key) ==>
              r.securityScore == data.securityScore && r.optimizationScore == data.optimizationScore
    ensures !IsMetricKey(key) ==> r.metrics == data.metrics
  {
    match key
      case EstimatedSize => data.(metrics := data.metrics.(estimatedSize := v.t))
      case SecurityScore => SetScore(data, key, v.n)
      case OptimizationScore => SetScore(data, key, v.n)
      case _ => data.(metrics := SetMetric(data.metrics, key, v.n))
  }

  /** One iteration of the loop: search for the key's pattern and store the match. */
  function ApplyPattern(data: AnalysisResult, response: string, key: Key): (r: AnalysisResult)
    ensures forall k :: k != key ==> Get(r, k) == Get(data, k)
    ensures r.detailedReport == data.detailedReport && r.optimizedDockerfile == data.optimizedDockerfile
  {
    match Capture(response, KeyLabel(key), true, KeyTail(key))
      case Some(group) =>
        CaptureShape(response, KeyLabel(key), true, KeyTail(key));
        Store(data, key, Stored(key, group))
      case None => data
  }

  /** The `data` dict after the loop has run over the patterns `ps`. */
  function ApplyPatterns(response: string, ps: seq<Key>): AnalysisResult {
    if ps == [] then Defaults
    else ApplyPattern(ApplyPatterns(response, ps[..|ps| - 1]), response, ps[|ps| - 1])
  }

  /** What a key holds after its pattern has been tried on defaults-or-untouched data. */
  function Expected(response: string, key: Key): FieldValue {
    match Capture(response, KeyLabel(key), true, KeyTail(key))
      case Some(group) =>
        CaptureShape(response, KeyLabel(key), true, KeyTail(key));
        Stored(key, group)
      case None => Get(Defaults, key)
  }

  /** The loop over the first `i + 1` keys is the loop over the first `i` followed by
      one more step. */
  lemma {:induction false} ApplyPatternsStep(response: string, ps: seq<Key>, i: nat)
    requires i < |ps|
    ensures ApplyPatterns(response, ps[..i + 1]) ==
            ApplyPattern(ApplyPatterns(response, ps[..i]), response, ps[i])
  {
    assert ps[..i + 1][..i] == ps[..i];
  }

  /** The key's field after its own step, when the field was still at its default. */
  lemma {:induction false} ApplyPatternOwn(data: AnalysisResult, response: string, key: Key)
    requires Get(data, key) == Get(Defaults, key)
    ensures Get(ApplyPattern(data, response, key), key) == Expected(response, key)
  {
  }

  /** After the loop has run over distinct keys `ps`, a key holds its own pattern's
      result when it is among them and its default otherwise; the two text fields keep
      their defaults. */
  lemma {:induction false} ApplyPatternsGet(response: string, ps: seq<Key>, key: Key)
    requires forall i, j :: 0 <= i < j < |ps| ==> ps[i] != ps[j]
    ensures Get(ApplyPatterns(response, ps), key) ==
            if key in ps then Expected(response, key) else Get(Defaults, key)
    ensures ApplyPatterns(response, ps).detailedReport == ""
    ensures ApplyPatterns(response, ps).optimizedDockerfile == ""
    decreases |ps|
  {
    if ps != [] {
      var init := ps[..|ps| - 1];
      var last := ps[|ps| - 1];
      assert ps == init + [last];
      ApplyPatternsGet(response, init, key);
      if key == last {
        assert key !in init;
        ApplyPatternOwn(ApplyPatterns(response, init), response, key);
      }
    }
  }

  /** Each key's field of `Parse` is what its pattern gives on its own. */
  lemma {:induction false} ParseGet(response: string, key: Key)
    ensures Get(Parse(response), key) == Expected(response, key)
  {
  }

  /** Running distinct patterns that cover every key fills every labelled field with its
      own match: no pattern's match lands in another key's field. */
  lemma {:induction false} FillFields(response: string, ps: seq<Key>)
    requires forall i, j :: 0 <= i < j < |ps| ==> ps[i] != ps[j]
    requires forall key :: key in ps
    ensures ApplyPatterns(response, ps) ==
            Parse(response).(detailedReport := "", optimizedDockerfile := "")
  {
    var d := ApplyPatterns(response, ps);
    var p := Parse(response).(detailedReport := "", optimizedDockerfile := "");
    forall key ensures Get(d, key) == Get(p, key) {
      FieldAgrees(response, ps, key);
    }
    ApplyPatternsGet(response, ps, SecurityScore);
    SameFields(d, p);
  }

  lemma {:induction false} FieldAgrees(response: string, ps: seq<Key>, key: Key)
    requires forall i, j :: 0 <= i < j < |ps| ==> ps[i] != ps[j]
    requires key in ps
    ensures Get(ApplyPatterns(response, ps), key) ==
            Get(Parse(response).(detailedReport := "", optimizedDockerfile := ""), key)
  {
    ApplyPatternsGet(response, ps, key);
    ParseGet(response, key);
  }

  /** The seven keys of `patterns` are distinct and cover every key. */
  lemma {:induction false} PatternKeysComplete()
    ensures forall i, j :: 0 <= i < j < |PatternKeys| ==> PatternKeys[i] != PatternKeys[j]
    ensures forall key :: key in PatternKeys
  {
    forall key ensures key in PatternKeys {
      var i := match key
        case SecurityScore => 0 case OptimizationScore => 1 case LayerCount => 2
        case EstimatedSize => 3 case CacheEfficiency => 4 case BuildTimeScore => 5
        case MaintainabilityScore => 6;
      assert PatternKeys[i] == key;
    }
  }

  /** Running all seven patterns in order fills every labelled field with its own match. */
  lemma {:induction false} PatternsFillFields(response: string)
    ensures ApplyPatterns(response, PatternKeys) ==
            Parse(response).(detailedReport := "", optimizedDockerfile := "")
  {
    PatternKeysComplete();
    FillFields(response, PatternKeys);
  }

  /** One pass of the loop: search for the key's pattern and, on a match, convert the
      group and store it in the key's field. */
  method RunPattern(data: AnalysisResult, response: string, key: Key) returns (r: AnalysisResult)
    ensures r == ApplyPattern(data, response, key)
  {
    r := data;
    var m := Capture(response, KeyLabel(key), true, KeyTail(key));
    if m.Some? {
      CaptureShape(response, KeyLabel(key), true, KeyTail(key));
      r := Store(data, key, Stored(key, m.value));
    }
  }

  /** The `for key, pattern in patterns.items()` loop over the pattern table `ps`, run
      on the defaults. */
  method RunPatterns(response: string, ps: seq<Key>) returns (data: AnalysisResult)
    ensures data == ApplyPatterns(response, ps)
  {
    data := Defaults;
    var i := 0;
    while i < |ps|
      invariant 0 <= i <= |ps|
      invariant data == ApplyPatterns(response, ps[..i])
    {
      data := RunPattern(data, response, ps[i]);
      ApplyPatternsStep(response, ps, i);
      i := i + 1;
    }
    assert ps[..i] == ps;
  }

  /** `DockerfileAnalyzer._extract_data_from_response`. */
  method ExtractData(response: string) returns (r: AnalysisResult)
    ensures r == Parse(response)
  {
    var data := RunPatterns(response, PatternKeys);
    PatternsFillFields(response);
    var report := Capture(response, ReportLabel, false, UntilStop(StopLabel));
    if report.Some? {
      data := data.(detailedReport := Strip(report.value));
    }
    var dockerfile := Capture(response, DockerfileLabel, false, ToEnd);
    if dockerfile.Some? {
      data := data.(optimizedDockerfile := Strip(dockerfile.value));
    }
    r := data;
  }

  // ---------------------------------------------------------------------------
  // Properties of the parser

  /** A response in which no pattern matches anywhere parses to the defaults. */
  lemma {:induction false} ParseDefaults(response: string)
    requires forall k :: 0 <= k <= |response| ==>
      !LabelAt(response, k, "Security Score", true) &&
      !LabelAt(response, k, "Optimization Score", true) &&
      !LabelAt(response, k, "Layer Count", true) &&
      !LabelAt(response, k, SizeLabel, true) &&
      !LabelAt(response, k, "Cache Efficiency", true) &&
      !LabelAt(response, k, "Build Time Score", true) &&
      !LabelAt(response, k, "Maintainability Score", true) &&
      !LabelAt(response, k, ReportLabel, false) &&
      !LabelAt(response, k, DockerfileLabel, false)
    ensures Parse(response) == Defaults
  {
    NoLabelNoCapture(response, "Security Score", true, Digits);
    NoLabelNoCapture(response, "Optimization Score", true, Digits);
    NoLabelNoCapture(response, "Layer Count", true, Digits);
    NoLabelNoCapture(response, SizeLabel, true, Line);
    NoLabelNoCapture(response, "Cache Efficiency", true, Digits);
    NoLabelNoCapture(response, "Build Time Score", true, Digits);
    NoLabelNoCapture(response, "Maintainability Score", true, Digits);
    NoLabelNoCapture(response, ReportLabel, false, UntilStop(StopLabel));
    NoLabelNoCapture(response, DockerfileLabel, false, ToEnd);
  }
  lemma {:induction false} DigitRunEndAt(s: string, q: nat, e: nat)
    requires q <= e <= |s|
    requires forall k :: q <= k < e ==> IsDigit(s[k])
    requires e == |s| || !IsDigit(s[e])
    ensures DigitRunEnd(s, q) == e
    decreases e - q
  {
    if q < e { DigitRunEndAt(s, q + 1, e); }
  }

  lemma {:induction false} LineEndAt(s: string, q: nat, e: nat)
    requires q <= e <= |s|
    requires forall k :: q <= k < e ==> s[k] != '\n'
    requires e == |s| || s[e] == '\n'
    ensures LineEnd(s, q) == e
    decreases e - q
  {
    if q < e { LineEndAt(s, q + 1, e); }
  }

  lemma {:induction false} StopEndAt(s: string, t: nat, e: nat, stop: string)
    requires t <= e <= |s| && StopAt(s, e, stop)
    requires forall u :: t <= u < e ==> !StopAt(s, u, stop)
    ensures StopEnd(s, t, stop) == e
    decreases e - t
  {
    if t < e { StopEndAt(s, t + 1, e, stop); }
  }

  lemma {:induction false} CaptureFound(s: string, name: string, ci: bool, tail: Tail, j: nat)
    requires j + |name| <= |s| && Search(s, name, ci, tail, 0) == Some(j)
    ensures Capture(s, name, ci, tail) == GroupText(tail, s, j + |name|)
  {
  }

  lemma {:induction false} GroupAtIs(tail: Tail, s: string, p: nat, g: nat, end: nat)
    requires p <= |s| && GroupStart(tail, s, p) == Some(g) && GroupEnd(tail, s, g) == end
    ensures GroupAt(tail, s, p) == Some(Span(g, end))
  {
  }

  /** The search finds the first position where the label occurs, if the rest of the
      pattern matches there. */
  lemma {:induction false} SearchFirst(s: string, name: string, ci: bool, tail: Tail, j: nat)
    requires LabelAt(s, j, name, ci) && forall k :: 0 <= k < j ==> !LabelAt(s, k, name, ci)
    requires GroupAt(tail, s, j + |name|).Some?
    ensures Search(s, name, ci, tail, 0) == Some(j)
  {
    assert MatchAt(s, j, name, ci, tail);
  }

  /** A search that finds the pattern at `j`, with the group after the label spanning
      `text`, captures `text`. */
  lemma {:induction false} CapturedText(s: string, name: string, ci: bool, tail: Tail, j: nat, g: nat, text: string)
    requires j + |name| <= |s| && Search(s, name, ci, tail, 0) == Some(j)
    requires GroupAt(tail, s, j + |name|) == Some(Span(g, g + |text|))
    requires s[g..g + |text|] == text
    ensures Capture(s, name, ci, tail) == Some(text)
  {
    CaptureFound(s, name, ci, tail, j);
  }

  /** The first occurrence of the label, followed by a group spanning `text`, makes the
      capture `text`. */
  lemma {:induction false} FirstCaptured(s: string, name: string, ci: bool, tail: Tail, j: nat, g: nat, text: string)
    requires LabelAt(s, j, name, ci) && forall k :: 0 <= k < j ==> !LabelAt(s, k, name, ci)
    requires GroupAt(tail, s, j + |name|) == Some(Span(g, g + |text|))
    requires s[g..g + |text|] == text
    ensures Capture(s, name, ci, tail) == Some(text)
  {
    SearchFirst(s, name, ci, tail, j);
    CapturedText(s, name, ci, tail, j, g, text);
  }

  /** A label at `j`, a colon and whitespace: the group starts right after the
      whitespace when a group can open there. */
  lemma {:induction false} StartAfterColon(tail: Tail, s: string, j: nat, name: string, sep: string)
    requires j + |name| + 1 + |sep| < |s|
    requires s[j..j + |name| + 1 + |sep|] == name + ":" + sep
    requires forall c :: c in sep ==> IsSpace(c)
    requires !IsSpace(s[j + |name| + 1 + |sep|]) && Opens(tail, s, j + |name| + 1 + |sep|)
    ensures GroupStart(tail, s, j + |name|) == Some(j + |name| + 1 + |sep|)
  {
    var p := j + |name|;
    var e := p + 1 + |sep|;
    var head := name + ":" + sep;
    assert head[|name|] == ':';
    assert s[p] == s[j..e][|name|];
    forall k | p + 1 <= k < e ensures IsSpace(s[k]) {
      assert head[k - j] == sep[k - p - 1];
      assert s[k] == s[j..e][k - j];
      assert sep[k - p - 1] in sep;
    }
    SpaceRunEndAt(s, p + 1, e);
  }

  /** Where the pieces of a field written as `prefix + name + ":" + sep + text + rest`
      sit in the response. */
  lemma {:induction false} FieldPieces(s: string, prefix: string, name: string, sep: string, text: string, rest: string)
    requires s == prefix + name + ":" + sep + text + rest
    ensures |s| == |prefix| + |name| + 1 + |sep| + |text| + |rest|
    ensures s[|prefix|..|prefix| + |name|] == name
    ensures s[|prefix|..|prefix| + |name| + 1 + |sep|] == name + ":" + sep
    ensures s[|prefix| + |name| + 1 + |sep|..|prefix| + |name| + 1 + |sep| + |text|] == text
    ensures rest != [] ==> s[|prefix| + |name| + 1 + |sep| + |text|] == rest[0]
  {
    var head := name + ":" + sep;
    assert s == prefix + head + text + rest;
    var e := |prefix| + |head|;
    assert s[|prefix|..e] == head;
    assert s[|prefix|..|prefix| + |name|] == head[..|name|];
    assert s[e..e + |text|] == text;
  }

  /** A field whose label first occurs at `j`, followed by a colon, whitespace and a
      group that spans exactly `text`, is captured as `text`. */
  lemma {:induction false} FieldCaptured(s: string, j: nat, name: string, ci: bool, sep: string, text: string, tail: Tail)
    requires forall k :: 0 <= k < j ==> !LabelAt(s, k, name, ci)
    requires j + |name| + 1 + |sep| + |text| <= |s|
    requires s[j..j + |name|] == name && s[j..j + |name| + 1 + |sep|] == name + ":" + sep
    requires s[j + |name| + 1 + |sep|..j + |name| + 1 + |sep| + |text|] == text
    requires forall c :: c in sep ==> IsSpace(c)
    requires text != [] && !IsSpace(text[0]) && Opens(tail, s, j + |name| + 1 + |sep|)
    requires GroupEnd(tail, s, j + |name| + 1 + |sep|) == j + |name| + 1 + |sep| + |text|
    ensures Capture(s, name, ci, tail) == Some(text)
  {
    var e := j + |name| + 1 + |sep|;
    assert s[e] == s[e..e + |text|][0];
    LabelAtSelf(s, j, name, ci);
    StartAfterColon(tail, s, j, name, sep);
    GroupAtIs(tail, s, j + |name|, e, e + |text|);
    FirstCaptured(s, name, ci, tail, j, e, text);
  }

  /** A run of digits `d` at `e`, with no digit after it, is where a digit group ends. */
  lemma {:induction false} DigitsEnd(s: string, e: nat, d: string)
    requires e + |d| <= |s| && s[e..e + |d|] == d
    requires d != [] && forall c :: c in d ==> IsDigit(c)
    requires e + |d| == |s| || !IsDigit(s[e + |d|])
    ensures Opens(Digits, s, e) && GroupEnd(Digits, s, e) == e + |d|
  {
    forall k | e <= k < e + |d| ensures IsDigit(s[k]) {
      assert s[k] == d[k - e];
      assert d[k - e] in d;
    }
    DigitRunEndAt(s, e, e + |d|);
  }

  /** A line `text` at `e`, followed by a newline or the end, is where a line group ends. */
  lemma {:induction false} LineEnds(s: string, e: nat, text: string)
    requires e + |text| <= |s| && s[e..e + |text|] == text
    requires text != [] && '\n' !in text
    requires e + |text| == |s| || s[e + |text|] == '\n'
    ensures Opens(Line, s, e) && GroupEnd(Line, s, e) == e + |text|
  {
    forall k | e <= k < e + |text| ensures s[k] != '\n' {
      assert s[k] == text[k - e];
      assert text[k - e] in text;
    }
    LineEndAt(s, e, e + |text|);
  }

  /** `n` characters at `e` up to the first stop are where a lazy group ends. */
  lemma {:induction false} StopEnds(s: string, e: nat, n: nat, stop: string)
    requires 0 < n && e + n <= |s| && OccursAt(s, e + n, stop)
    requires forall u :: e < u < e + n ==> !StopAt(s, u, stop)
    ensures Opens(UntilStop(stop), s, e) && GroupEnd(UntilStop(stop), s, e) == e + n
  {
    StopEndAt(s, e + 1, e + n, stop);
  }

  /** Writing an integer field as `Label: n` after a prefix in which the label does not
      start, and reading it back, gives `n`, whatever the whitespace after the colon, as
      long as no further digit follows. */
  lemma {:induction false} IntFieldRoundTrip(prefix: string, name: string, sep: string, n: nat, rest: string)
    requires forall k :: 0 <= k < |prefix| ==>
               !LabelAt(prefix + name + ":" + sep + DigitString(n) + rest, k, name, true)
    requires forall c :: c in sep ==> IsSpace(c)
    requires rest == [] || !IsDigit(rest[0])
    ensures IntLabel(prefix + name + ":" + sep + DigitString(n) + rest, name) == n
  {
    var d := DigitString(n);
    var s := prefix + name + ":" + sep + d + rest;
    FieldPieces(s, prefix, name, sep, d, rest);
    DigitsEnd(s, |prefix| + |name| + 1 + |sep|, d);
    assert d[0] in d;
    FieldCaptured(s, |prefix|, name, true, sep, d, Digits);
    DigitsRoundTrip(n);
  }

  /** A line field, `name: text` up to a newline or the end after a prefix in which the
      label does not start, is captured as its text. */
  lemma {:induction false} LineCaptured(prefix: string, name: string, ci: bool, sep: string, text: string, rest: string)
    requires forall k :: 0 <= k < |prefix| ==> !LabelAt(prefix + name + ":" + sep + text + rest, k, name, ci)
    requires forall c :: c in sep ==> IsSpace(c)
    requires text != [] && '\n' !in text && !IsSpace(text[0])
    requires rest == [] || rest[0] == '\n'
    ensures Capture(prefix + name + ":" + sep + text + rest, name, ci, Line) == Some(text)
  {
    var s := prefix + name + ":" + sep + text + rest;
    FieldPieces(s, prefix, name, sep, text, rest);
    LineEnds(s, |prefix| + |name| + 1 + |sep|, text);
    FieldCaptured(s, |prefix|, name, ci, sep, text, Line);
  }

  /** Writing the size as `Estimated Size: text` on its own line and reading it back gives
      the text, when it has no surrounding whitespace. */
  lemma {:induction false} SizeRoundTrip(prefix: string, sep: string, size: string, rest: string)
    requires forall k :: 0 <= k < |prefix| ==>
               !LabelAt(prefix + SizeLabel + ":" + sep + size + rest, k, SizeLabel, true)
    requires forall c :: c in sep ==> IsSpace(c)
    requires size != [] && '\n' !in size && !IsSpace(size[0]) && !IsSpace(size[|size| - 1])
    requires rest == [] || rest[0] == '\n'
    ensures SizeText(prefix + SizeLabel + ":" + sep + size + rest) == size
  {
    LineCaptured(prefix, SizeLabel, true, sep, size, rest);
  }

  /** No stop starts inside the text: positions in `text` are positions in the whole
      response, and the stop follows the text. */
  lemma {:induction false} NoStopInside(head: string, text: string, stop: string, rest: string)
    requires stop != []
    requires forall u :: 0 < u < |text| ==> !OccursAt(text + stop + rest, u, stop)
    ensures forall u :: |head| < u < |head| + |text| ==> !StopAt(head + text + stop + rest, u, stop)
    ensures OccursAt(head + text + stop + rest, |head| + |text|, stop)
  {
    var tail := text + stop + rest;
    var s := head + tail;
    assert s == head + text + stop + rest;
    forall u | |head| < u < |head| + |text| ensures !StopAt(s, u, stop) {
      assert s[u..u + |stop|] == tail[u - |head|..u - |head| + |stop|];
      assert !OccursAt(tail, u - |head|, stop);
    }
    assert s[|head| + |text|..|head| + |text| + |stop|] == stop;
  }

  /** The pieces of a field followed by a stop. */
  lemma {:induction false} StopFieldPieces(s: string, prefix: string, name: string, sep: string, text: string, stop: string,
                        rest: string)
    requires s == prefix + name + ":" + sep + text + stop + rest
    ensures |s| == |prefix| + |name| + 1 + |sep| + |text| + |stop + rest|
    ensures s[|prefix|..|prefix| + |name|] == name
    ensures s[|prefix|..|prefix| + |name| + 1 + |sep|] == name + ":" + sep
    ensures s[|prefix| + |name| + 1 + |sep|..|prefix| + |name| + 1 + |sep| + |text|] == text
  {
    AppendAssoc(prefix + name + ":" + sep + text, stop, rest);
    FieldPieces(s, prefix, name, sep, text, stop + rest);
  }

  /** Text followed by a stop, with no stop starting inside it, is where a lazy group
      that opens on the text ends. */
  lemma {:induction false} StopFieldEnd(s: string, head: string, text: string, stop: string, rest: string)
    requires s == head + text + stop + rest
    requires text != [] && stop != []
    requires forall u :: 0 < u < |text| ==> !OccursAt(text + stop + rest, u, stop)
    ensures Opens(UntilStop(stop), s, |head|) && GroupEnd(UntilStop(stop), s, |head|) == |head| + |text|
  {
    NoStopInside(head, text, stop, rest);
    StopEnds(s, |head|, |text|, stop);
  }

  /** A field read up to a stop, `name: text` followed by the stop, after a prefix in which
      the label does not start, is captured as its text when no stop starts inside it. */
  lemma {:induction false} StopCaptured(prefix: string, name: string, ci: bool, sep: string, text: string, stop: string,
                     rest: string)
    requires forall k :: 0 <= k < |prefix| ==>
               !LabelAt(prefix + name + ":" + sep + text + stop + rest, k, name, ci)
    requires forall c :: c in sep ==> IsSpace(c)
    requires text != [] && !IsSpace(text[0]) && stop != []
    requires forall u :: 0 < u < |text| ==> !OccursAt(text + stop + rest, u, stop)
    ensures Capture(prefix + name + ":" + sep + text + stop + rest, name, ci, UntilStop(stop)) == Some(text)
  {
    var s := prefix + name + ":" + sep + text + stop + rest;
    StopFieldPieces(s, prefix, name, sep, text, stop, rest);
    StopFieldEnd(s, prefix + name + ":" + sep, text, stop, rest);
    FieldCaptured(s, |prefix|, name, ci, sep, text, UntilStop(stop));
  }

  /** `Detailed Report: text` followed by `Optimized Dockerfile:` reads back as the text,
      stripped, when the text holds no earlier `Optimized Dockerfile:`. */
  lemma {:induction false} ReportRoundTrip(prefix: string, sep: string, text: string, rest: string)
    requires forall k :: 0 <= k < |prefix| ==>
               !LabelAt(prefix + ReportLabel + ":" + sep + text + StopLabel + rest, k, ReportLabel, false)
    requires forall c :: c in sep ==> IsSpace(c)
    requires text != [] && !IsSpace(text[0])
    requires forall u :: 0 < u < |text| ==> !OccursAt(text + StopLabel + rest, u, StopLabel)
    ensures TextLabel(prefix + ReportLabel + ":" + sep + text + StopLabel + rest, ReportLabel, UntilStop(StopLabel)) ==
            Strip(text)
  {
    StopCaptured(prefix, ReportLabel, false, sep, text, StopLabel, rest);
  }

  /** A field running to the end, `name: text` after a prefix in which the label does not
      start, is captured as the whole text. */
  lemma {:induction false} ToEndCaptured(prefix: string, name: string, ci: bool, sep: string, text: string)
    requires forall k :: 0 <= k < |prefix| ==> !LabelAt(prefix + name + ":" + sep + text, k, name, ci)
    requires forall c :: c in sep ==> IsSpace(c)
    requires text != [] && !IsSpace(text[0])
    ensures Capture(prefix + name + ":" + sep + text, name, ci, ToEnd) == Some(text)
  {
    var s := prefix + name + ":" + sep + text;
    assert s == prefix + name + ":" + sep + text + [];
    FieldPieces(s, prefix, name, sep, text, []);
    FieldCaptured(s, |prefix|, name, ci, sep, text, ToEnd);
  }

  /** `Optimized Dockerfile: text` reads back as the whole remaining text, stripped. */
  lemma {:induction false} DockerfileRoundTrip(prefix: string, sep: string, text: string)
    requires forall k :: 0 <= k < |prefix| ==>
               !LabelAt(prefix + DockerfileLabel + ":" + sep + text, k, DockerfileLabel, false)
    requires forall c :: c in sep ==> IsSpace(c)
    requires text != [] && !IsSpace(text[0])
    ensures TextLabel(prefix + DockerfileLabel + ":" + sep + text, DockerfileLabel, ToEnd) == Strip(text)
  {
    ToEndCaptured(prefix, DockerfileLabel, false, sep, text);
  }
}
