/** The apt and pip passes of `DockerfileOptimizer` (`optimize_apt_commands`,
    `optimize_pip_commands`): collect the install spans, merge their packages into one
    sorted list, delete the spans, collapse blank lines and splice one merged command in
    right after the line of the first `FROM`. */
module PackagePasses {
  import opened PyStr
  import opened SortedSet
  import opened Patterns

  const AptHeads: seq<string> := ["RUN apt-get update"]
  /** `RUN (?:pip|pip3) install` as its two literal alternatives, in the order tried. */
  const PipHeads: seq<string> := ["RUN pip install", "RUN pip3 install"]
  const AptKeyword: string := "install -y"
  const PipKeyword: string := "install"

  lemma HeadsAreValid()
    ensures ValidHeads(AptHeads) && ValidHeads(PipHeads)
  {
    assert forall c :: c in AptHeads[0] ==> c != '\n';
    assert forall c :: c in PipHeads[0] ==> c != '\n';
    assert forall c :: c in PipHeads[1] ==> c != '\n';
  }

  function AptSpans(doc: string): seq<string> {
    HeadsAreValid();
    FindSpans(doc, 0, AptHeads)
  }

  function PipSpans(doc: string): seq<string> {
    HeadsAreValid();
    FindSpans(doc, 0, PipHeads)
  }

  /** The Python `packages` set after the `update` loop over the spans. */
  ghost function PackageSet(spans: seq<string>, kw: string): set<string> {
    if spans == [] then {}
    else PackageSet(spans[..|spans| - 1], kw) + Elems(SpanPackages(spans[|spans| - 1], kw))
  }

  /** `sorted(packages)`: the union of all spans' package tokens, ascending, each once. */
  function SortedPackages(spans: seq<string>, kw: string): (r: seq<string>)
    ensures StrictlyAscending(r)
    ensures Elems(r) == PackageSet(spans, kw)
  {
    if spans == [] then []
    else InsertAll(SortedPackages(spans[..|spans| - 1], kw), SpanPackages(spans[|spans| - 1], kw))
  }

  /** The merged list depends only on the set of packages named, not on the order or
      grouping of the install commands that name them. */
  lemma MergedPackagesDeterministic(spans1: seq<string>, spans2: seq<string>, kw: string)
    requires PackageSet(spans1, kw) == PackageSet(spans2, kw)
    ensures SortedPackages(spans1, kw) == SortedPackages(spans2, kw)
  {
    AscendingUnique(SortedPackages(spans1, kw), SortedPackages(spans2, kw));
  }

  /** Spans without a newline (every span not followed by a blank line) contribute no
      package: the extraction pattern needs a newline. */
  lemma {:induction false} SinglineSpansGiveNoPackages(spans: seq<string>, kw: string)
    requires forall sp :: sp in spans ==> '\n' !in sp
    ensures SortedPackages(spans, kw) == []
  {
    if spans != [] {
      assert spans[|spans| - 1] in spans;
      assert forall sp :: sp in spans[..|spans| - 1] ==> sp in spans;
      SinglineSpansGiveNoPackages(spans[..|spans| - 1], kw);
    }
  }

  /** `packages.update(tokens)`. */
  method Update(packages: seq<string>, tokens: seq<string>) returns (updated: seq<string>)
    requires StrictlyAscending(packages)
    ensures StrictlyAscending(updated) && Elems(updated) == Elems(packages) + Elems(tokens)
  {
    updated := packages;
    var j := 0;
    while j < |tokens|
      invariant 0 <= j <= |tokens|
      invariant StrictlyAscending(updated)
      invariant Elems(updated) == Elems(packages) + Elems(tokens[..j])
    {
      assert tokens[..j + 1] == tokens[..j] + [tokens[j]];
      assert Elems(tokens[..j + 1]) == Elems(tokens[..j]) + {tokens[j]};
      updated := Insert(updated, tokens[j]);
      j := j + 1;
    }
    assert tokens[..j] == tokens;
  }

  /** The package loop of both passes: a set grown with each span's first extraction match. */
  method MergePackages(spans: seq<string>, kw: string) returns (packages: seq<string>)
    ensures StrictlyAscending(packages) && Elems(packages) == PackageSet(spans, kw)
    ensures packages == SortedPackages(spans, kw)
  {
    packages := [];
    var i := 0;
    while i < |spans|
      invariant 0 <= i <= |spans|
      invariant StrictlyAscending(packages)
      invariant Elems(packages) == PackageSet(spans[..i], kw)
    {
      packages := Update(packages, SpanPackages(spans[i], kw));
      assert spans[..i + 1][..i] == spans[..i];
      assert PackageSet(spans[..i + 1], kw) == PackageSet(spans[..i], kw) + Elems(SpanPackages(spans[i], kw));
      i := i + 1;
    }
    assert spans[..i] == spans;
    AscendingUnique(packages, SortedPackages(spans, kw));
  }

  /** The merged apt command, with the packages one per continuation line. */
  function AptCommand(packages: seq<string>): string {
    "RUN apt-get update && \\\n" +
    "    DEBIAN_FRONTEND=noninteractive \\\n" +
    "    apt-get install -y --no-install-recommends \\\n" +
    "        " + Join(packages, " \\\n        ") + " \\\n" +
    "    && apt-get clean \\\n" +
    "    && rm -rf /var/lib/apt/lists/*"
  }

  /** The requirements-file command that replaces every pip install. */
  const PipCommand: string :=
    "COPY requirements.txt /tmp/\n" +
    "RUN pip install --no-cache-dir -r /tmp/requirements.txt && \\\n" +
    "    rm /tmp/requirements.txt"

  /** Index of `text.find('\n', text.find('FROM'))` as a Python slice bound. */
  function FromAnchor(text: string): (a: nat)
    ensures a <= |text|
  {
    SliceIndex(FindFrom(text, "\n", Find(text, "FROM")), |text|)
  }

  /** Where the merged command goes: at the first newline at or after the first `FROM`;
      without one of them Python's `-1` turns the slices around the last character. */
  lemma FromAnchorCases(text: string)
    ensures var f := Find(text, "FROM");
            f != -1 && FindFrom(text, "\n", f) != -1 ==>
              var a := FromAnchor(text);
              f <= a < |text| && text[a] == '\n' && forall k :: f <= k < a ==> text[k] != '\n'
    ensures var f := Find(text, "FROM");
            f == -1 || FindFrom(text, "\n", f) == -1 ==>
              FromAnchor(text) == if text == [] then 0 else |text| - 1
  {
    var f := Find(text, "FROM");
    var n := FindFrom(text, "\n", f);
    if f != -1 && n != -1 {
      assert OccursAt(text, n, "\n");
      forall k | f <= k < n ensures text[k] != '\n' {
        assert !OccursAt(text, k, "\n");
        assert text[k..k + 1] == [text[k]];
      }
    } else if text != [] {
      if n != -1 {
        assert f == -1;
        assert FindStart(f, |text|) == |text| - 1;
      }
    }
  }

  /** `text[:i] + '\n' + command + text[i:]` at the `FROM` anchor. */
  function SpliceAfterFrom(text: string, command: string): (r: string)
    ensures |r| == |text| + 1 + |command|
    ensures var a := FromAnchor(text);
            r[..a] == text[..a] && r[a..a + 1 + |command|] == "\n" + command &&
            r[a + 1 + |command|..] == text[a..]
  {
    var a := FromAnchor(text);
    text[..a] + "\n" + command + text[a..]
  }

  /** The text left after deleting the spans and collapsing blank lines. */
  function Cleaned(doc: string, spans: seq<string>): (r: string)
    ensures NoTripleNewline(r)
  {
    CollapseNoTriple(RemoveEach(doc, spans));
    Collapse(RemoveEach(doc, spans))
  }

  /** `optimize_apt_commands` as a function of the document. */
  function AptPass(doc: string): string {
    var spans := AptSpans(doc);
    if spans == [] then doc
    else SpliceAfterFrom(Cleaned(doc, spans), AptCommand(SortedPackages(spans, AptKeyword)))
  }

  /** `optimize_pip_commands` as a function of the document: the rewritten text and the
      sorted package list it would write to `requirements.txt`. */
  function PipPass(doc: string): (string, seq<string>) {
    var spans := PipSpans(doc);
    if spans == [] then (doc, [])
    else (SpliceAfterFrom(Cleaned(doc, spans), PipCommand), SortedPackages(spans, PipKeyword))
  }

  /** The `requirements.txt` text: the merged packages, one per line. */
  function RequirementsText(packages: seq<string>): string {
    Join(packages, "\n")
  }

  /** Every package a span names is a word: non-empty and without whitespace. */
  lemma {:induction false} PackagesAreWords(spans: seq<string>, kw: string)
    ensures forall p :: p in PackageSet(spans, kw) ==> p != [] && forall c :: c in p ==> !IsSpace(c)
  {
    if spans != [] {
      PackagesAreWords(spans[..|spans| - 1], kw);
    }
  }

  /** Read back as whitespace-separated words, the requirements file lists exactly the
      merged packages, in order. */
  lemma RequirementsReadBack(doc: string)
    ensures Tokens(RequirementsText(PipPass(doc).1)) == PipPass(doc).1
  {
    var spans := PipSpans(doc);
    if spans != [] {
      PackagesAreWords(spans, PipKeyword);
      var ps := SortedPackages(spans, PipKeyword);
      assert forall t :: t in ps ==> t in Elems(ps);
      TokensOfJoin(ps, "\n");
    }
  }

  /** A document without `RUN apt-get update` passes through the apt pass unchanged. */
  lemma AptPassIdentity(doc: string)
    requires Absent(doc, "RUN apt-get update")
    ensures AptPass(doc) == doc
  {
    HeadsAreValid();
    NoHeadNoSpan(doc, 0, AptHeads);
  }

  /** A document without `RUN pip install` or `RUN pip3 install` passes through the pip
      pass unchanged, and no package is listed. */
  lemma PipPassIdentity(doc: string)
    requires Absent(doc, "RUN pip install") && Absent(doc, "RUN pip3 install")
    ensures PipPass(doc) == (doc, [])
  {
    HeadsAreValid();
    NoHeadNoSpan(doc, 0, PipHeads);
  }

  /** The removal loop, one `str.replace` per span. */
  method RemoveSpans(doc: string, spans: seq<string>) returns (text: string)
    ensures text == RemoveEach(doc, spans)
  {
    text := doc;
    var i := 0;
    while i < |spans|
      invariant 0 <= i <= |spans|
      invariant text == RemoveEach(doc, spans[..i])
    {
      assert spans[..i + 1][..i] == spans[..i];
      text := RemoveAll(text, spans[i]);
      i := i + 1;
    }
    assert spans[..i] == spans;
  }

  /** `DockerfileOptimizer.optimize_apt_commands`. */
  method OptimizeAptCommands(doc: string) returns (r: string)
    ensures r == AptPass(doc)
    ensures AptSpans(doc) == [] ==> r == doc
  {
    var spans := AptSpans(doc);
    r := doc;
    if |spans| > 0 {
      var packages := MergePackages(spans, AptKeyword);
      var combined := AptCommand(packages);
      var text := RemoveSpans(doc, spans);
      text := Collapse(text);
      r := SpliceAfterFrom(text, combined);
    }
  }

  /** `DockerfileOptimizer.optimize_pip_commands`, with the package list returned instead
      of written to `requirements.txt`. */
  method OptimizePipCommands(doc: string) returns (r: string, packages: seq<string>)
    ensures (r, packages) == PipPass(doc)
    ensures StrictlyAscending(packages) && Elems(packages) == PackageSet(PipSpans(doc), PipKeyword)
  {
    var spans := PipSpans(doc);
    r, packages := doc, [];
    if |spans| > 0 {
      packages := MergePackages(spans, PipKeyword);
      var text := RemoveSpans(doc, spans);
      text := Collapse(text);
      r := SpliceAfterFrom(text, PipCommand);
    }
  }
}
