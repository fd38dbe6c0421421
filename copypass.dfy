/** The COPY pass of `DockerfileOptimizer` (`optimize_copy_commands`): group the
    `COPY src dest` pairs by destination in first-seen order, delete the originals, and
    insert the grouped commands before the first `CMD`; it also hands back the fixed
    `.dockerignore` entries. */
module CopyPass {
  import opened PyStr
  import opened Patterns

  type Pair = (string, string)

  /** The `.dockerignore` entries the pass always returns, whatever the document. */
  const DockerIgnoreEntries: seq<string> := [
    ".git", ".gitignore", "Dockerfile", ".dockerignore", "__pycache__", "*.pyc", "*.pyo",
    "*.pyd", ".Python", "env", "pip-log.txt", "pip-delete-this-directory.txt", ".tox",
    ".coverage", ".coverage.*", "htmlcov", ".pytest_cache", ".env", ".venv", "venv",
    "node_modules", "npm-debug.log"
  ]

  /** The ignore list has 22 entries, none repeated. */
  lemma DockerIgnoreShape()
    ensures |DockerIgnoreEntries| == 22
    ensures forall i, j :: 0 <= i < j < 22 ==> DockerIgnoreEntries[i] != DockerIgnoreEntries[j]
  {
  }

  /** Destinations in the order they are first seen (the keys of the `copy_groups` dict). */
  function FirstSeen(pairs: seq<Pair>): (keys: seq<string>)
    ensures forall i, j :: 0 <= i < j < |keys| ==> keys[i] != keys[j]
    ensures forall d :: d in keys <==> exists p :: p in pairs && p.1 == d
  {
    if pairs == [] then []
    else
      var init := pairs[..|pairs| - 1];
      var last := pairs[|pairs| - 1];
      var keys := FirstSeen(init);
      assert forall p :: p in pairs <==> p in init || p == last;
      if last.1 in keys then keys else keys + [last.1]
  }

  /** Sources copied to `d`, in document order, repeats kept (the list `copy_groups[d]`). */
  function SourcesFor(pairs: seq<Pair>, d: string): seq<string> {
    if pairs == [] then []
    else
      var last := pairs[|pairs| - 1];
      SourcesFor(pairs[..|pairs| - 1], d) + (if last.1 == d then [last.0] else [])
  }

  /** Index of the first pair whose destination is `d`. */
  function FirstIndex(pairs: seq<Pair>, d: string): (k: nat)
    ensures k <= |pairs|
    ensures k < |pairs| ==> pairs[k].1 == d
    ensures forall i :: 0 <= i < k ==> pairs[i].1 != d
  {
    if pairs == [] then 0
    else if pairs[0].1 == d then 0
    else 1 + FirstIndex(pairs[1..], d)
  }

  /** Groups come out in the order their destination was first seen. */
  lemma {:induction false} FirstSeenOrder(pairs: seq<Pair>, i: nat, j: nat)
    requires i < j < |FirstSeen(pairs)|
    ensures FirstIndex(pairs, FirstSeen(pairs)[i]) < FirstIndex(pairs, FirstSeen(pairs)[j]) < |pairs|
  {
    var init := pairs[..|pairs| - 1];
    var keys := FirstSeen(init);
    var last := pairs[|pairs| - 1];
    FirstIndexPrefix(pairs, FirstSeen(pairs)[i]);
    if j < |keys| {
      FirstIndexPrefix(pairs, FirstSeen(pairs)[j]);
      FirstSeenOrder(init, i, j);
    } else {
      assert FirstSeen(pairs)[j] == last.1 && last.1 !in keys;
      assert FirstSeen(pairs)[i] == keys[i];
      FirstIndexBound(init, keys[i]);
      FirstIndexAbsent(init, last.1);
    }
  }

  lemma {:induction false} FirstIndexPrefix(pairs: seq<Pair>, d: string)
    requires pairs != []
    requires d in FirstSeen(pairs[..|pairs| - 1])
    ensures FirstIndex(pairs, d) == FirstIndex(pairs[..|pairs| - 1], d)
  {
    var init := pairs[..|pairs| - 1];
    FirstIndexBound(init, d);
    var k := FirstIndex(init, d);
    assert pairs[k] == init[k];
    FirstIndexUnique(pairs, d, k);
  }

  lemma {:induction false} FirstIndexUnique(pairs: seq<Pair>, d: string, k: nat)
    requires k < |pairs| && pairs[k].1 == d
    requires forall i :: 0 <= i < k ==> pairs[i].1 != d
    ensures FirstIndex(pairs, d) == k
  {
    if k > 0 {
      assert forall i :: 0 <= i < k - 1 ==> pairs[1..][i] == pairs[i + 1];
      FirstIndexUnique(pairs[1..], d, k - 1);
    }
  }

  lemma FirstIndexBound(pairs: seq<Pair>, d: string)
    requires d in FirstSeen(pairs)
    ensures FirstIndex(pairs, d) < |pairs|
  {
    var p :| p in pairs && p.1 == d;
    var k :| 0 <= k < |pairs| && pairs[k] == p;
  }

  lemma FirstIndexAbsent(pairs: seq<Pair>, d: string)
    requires d !in FirstSeen(pairs)
    ensures forall src :: FirstIndex(pairs + [(src, d)], d) == |pairs|
  {
    forall src ensures FirstIndex(pairs + [(src, d)], d) == |pairs| {
      var ps := pairs + [(src, d)];
      forall i | 0 <= i < |pairs| ensures ps[i].1 != d {
        assert ps[i] == pairs[i] && pairs[i] in pairs;
      }
      FirstIndexUnique(ps, d, |pairs|);
    }
  }

  /** Every pair survives the grouping: its source is listed under its destination. */
  lemma {:induction false} GroupingConserves(pairs: seq<Pair>, k: nat)
    requires k < |pairs|
    ensures pairs[k].1 in FirstSeen(pairs)
    ensures pairs[k].0 in SourcesFor(pairs, pairs[k].1)
  {
    assert pairs[k] in pairs;
    var init := pairs[..|pairs| - 1];
    if k < |pairs| - 1 {
      assert init[k] == pairs[k];
      GroupingConserves(init, k);
    }
  }

  /** Each destination of the grouping has at least one source. */
  lemma {:induction false} SourcesNonEmpty(pairs: seq<Pair>, d: string)
    requires d in FirstSeen(pairs)
    ensures SourcesFor(pairs, d) != []
  {
    var p :| p in pairs && p.1 == d;
    var k :| 0 <= k < |pairs| && pairs[k] == p;
    GroupingConserves(pairs, k);
  }

  /** The command emitted for one destination: `COPY s d` for a single source,
      `COPY s1 ... sn d/` for several. */
  function GroupCommand(d: string, sources: seq<string>): string
    requires sources != []
  {
    if |sources| == 1 then "COPY " + sources[0] + " " + d
    else "COPY " + Join(sources, " ") + " " + d + "/"
  }

  /** The grouped commands, one per destination, in first-seen order. */
  function GroupedCommands(pairs: seq<Pair>): (r: seq<string>)
    ensures |r| == |FirstSeen(pairs)|
  {
    var keys := FirstSeen(pairs);
    seq(|keys|, i requires 0 <= i < |keys| =>
      SourcesNonEmpty(pairs, keys[i]);
      GroupCommand(keys[i], SourcesFor(pairs, keys[i])))
  }

  /** The three copies of the example below: `A -> /x`, `B -> /x`, `C -> /y`. */
  const ExamplePairs: seq<Pair> := [("A", "/x"), ("B", "/x"), ("C", "/y")]

  lemma ExampleFirstSeen()
    ensures FirstSeen(ExamplePairs) == ["/x", "/y"]
  {
    var p1: seq<Pair> := [("A", "/x")];
    var p2: seq<Pair> := p1 + [("B", "/x")];
    assert ExamplePairs[..2] == p2 && p2[..1] == p1 && p1[..0] == [];
    assert FirstSeen(p1) == ["/x"];
    assert FirstSeen(p2) == ["/x"];
  }

  lemma ExampleSources()
    ensures SourcesFor(ExamplePairs, "/x") == ["A", "B"]
    ensures SourcesFor(ExamplePairs, "/y") == ["C"]
  {
    var p1: seq<Pair> := [("A", "/x")];
    var p2: seq<Pair> := p1 + [("B", "/x")];
    assert ExamplePairs[..2] == p2 && p2[..1] == p1 && p1[..0] == [];
    assert SourcesFor(p1, "/x") == ["A"] && SourcesFor(p1, "/y") == [];
    assert SourcesFor(p2, "/x") == ["A", "B"] && SourcesFor(p2, "/y") == [];
  }

  /** Copies `A -> /x`, `B -> /x`, `C -> /y` become one grouped command for `/x` listing
      both sources, then a direct command for `/y`. */
  lemma GroupingExample()
    ensures GroupedCommands(ExamplePairs) == ["COPY A B /x/", "COPY C /y"]
  {
    ExampleFirstSeen();
    ExampleSources();
    assert Join(["A", "B"], " ") == "A B";
    var g := GroupedCommands(ExamplePairs);
    assert g[0] == "COPY A B /x/";
    assert g[1] == "COPY C /y";
  }

  /** The text each original is deleted by: rebuilt with single spaces. */
  function CopyText(p: Pair): string {
    "COPY " + p.0 + " " + p.1
  }

  function CopyTexts(pairs: seq<Pair>): (r: seq<string>)
    ensures |r| == |pairs| && forall i :: 0 <= i < |pairs| ==> r[i] == CopyText(pairs[i])
  {
    seq(|pairs|, i requires 0 <= i < |pairs| => CopyText(pairs[i]))
  }

  /** `text.find('CMD')`, or the end of the text when there is no `CMD`. */
  function CmdAnchor(text: string): (a: nat)
    ensures a <= |text|
    ensures forall k :: k < a ==> !OccursAt(text, k, "CMD")
    ensures a < |text| <==> !Absent(text, "CMD")
    ensures a < |text| ==> OccursAt(text, a, "CMD")
  {
    var i := Find(text, "CMD");
    if i == -1 then |text| else i
  }

  /** `optimize_copy_commands`'s text result as a function of the document. */
  function CopyPass(doc: string): string {
    var pairs := CopyPairs(doc, 0);
    if pairs == [] then doc
    else
      var text := RemoveEach(doc, CopyTexts(pairs));
      var a := CmdAnchor(text);
      text[..a] + Join(GroupedCommands(pairs), "\n") + "\n" + text[a..]
  }

  /** A document without "COPY" passes through unchanged. */
  lemma CopyPassIdentity(doc: string)
    requires Absent(doc, "COPY")
    ensures CopyPass(doc) == doc
  {
    NoCopyNoPairs(doc, 0);
  }

  /** A destination never seen has no sources. */
  lemma {:induction false} SourcesOfUnseen(pairs: seq<Pair>, d: string)
    requires d !in FirstSeen(pairs)
    ensures SourcesFor(pairs, d) == []
  {
    if pairs != [] {
      var init := pairs[..|pairs| - 1];
      assert d !in FirstSeen(init);
      SourcesOfUnseen(init, d);
    }
  }

  /** The grouping loop: fills the destination-keyed groups in first-seen order. */
  method GroupByDestination(pairs: seq<Pair>) returns (keys: seq<string>, groups: map<string, seq<string>>)
    ensures keys == FirstSeen(pairs)
    ensures groups.Keys == set d | d in keys
    ensures forall d :: d in groups ==> groups[d] == SourcesFor(pairs, d)
  {
    keys, groups := [], map[];
    var i := 0;
    while i < |pairs|
      invariant 0 <= i <= |pairs|
      invariant keys == FirstSeen(pairs[..i])
      invariant groups.Keys == set d | d in keys
      invariant forall d :: d in groups ==> groups[d] == SourcesFor(pairs[..i], d)
    {
      var (src, dest) := pairs[i];
      ghost var seen := pairs[..i];
      assert pairs[..i + 1][..i] == seen;
      assert pairs[..i + 1][i] == (src, dest);
      if dest !in groups {
        SourcesOfUnseen(seen, dest);
        keys := keys + [dest];
        groups := groups[dest := []];
      }
      groups := groups[dest := groups[dest] + [src]];
      i := i + 1;
    }
    assert pairs[..i] == pairs;
  }

  /** The emission loop: one command per group, in the dict's insertion order. */
  method EmitGroups(keys: seq<string>, groups: map<string, seq<string>>) returns (commands: seq<string>)
    requires forall d :: d in keys ==> d in groups && groups[d] != []
    ensures |commands| == |keys|
    ensures forall i :: 0 <= i < |keys| ==> commands[i] == GroupCommand(keys[i], groups[keys[i]])
  {
    commands := [];
    var i := 0;
    while i < |keys|
      invariant 0 <= i <= |keys|
      invariant |commands| == i
      invariant forall k :: 0 <= k < i ==> commands[k] == GroupCommand(keys[k], groups[keys[k]])
    {
      var dest := keys[i];
      var sources := groups[dest];
      if |sources| == 1 {
        commands := commands + ["COPY " + sources[0] + " " + dest];
      } else {
        commands := commands + ["COPY " + Join(sources, " ") + " " + dest + "/"];
      }
      i := i + 1;
    }
  }

  /** The removal loop, deleting each pair as `COPY <src> <dest>`. */
  method RemoveCopies(doc: string, pairs: seq<Pair>) returns (text: string)
    ensures text == RemoveEach(doc, CopyTexts(pairs))
  {
    text := doc;
    var i := 0;
    while i < |pairs|
      invariant 0 <= i <= |pairs|
      invariant text == RemoveEach(doc, CopyTexts(pairs)[..i])
    {
      assert CopyTexts(pairs)[..i + 1][..i] == CopyTexts(pairs)[..i];
      text := RemoveAll(text, "COPY " + pairs[i].0 + " " + pairs[i].1);
      i := i + 1;
    }
    assert CopyTexts(pairs)[..i] == CopyTexts(pairs);
  }

  /** `DockerfileOptimizer.optimize_copy_commands`. */
  method OptimizeCopyCommands(doc: string) returns (r: string, ignore: seq<string>)
    ensures r == CopyPass(doc)
    ensures ignore == DockerIgnoreEntries
  {
    ignore := DockerIgnoreEntries;
    var pairs := CopyPairs(doc, 0);
    r := doc;
    if |pairs| > 0 {
      var keys, groups := GroupByDestination(pairs);
      forall d | d in keys ensures d in groups && groups[d] != [] {
        SourcesNonEmpty(pairs, d);
      }
      var text := RemoveCopies(doc, pairs);
      var commands := EmitGroups(keys, groups);
      assert commands == GroupedCommands(pairs);
      var a := Find(text, "CMD");
      if a == -1 {
        a := |text|;
      }
      r := text[..a] + Join(commands, "\n") + "\n" + text[a..];
    }
  }
}
