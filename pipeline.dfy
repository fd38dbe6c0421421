/** The fixed order in which `DockerfileAnalyzer.analyze_dockerfile` chains the passes
    (apt, pip, COPY, build arguments), and the build-arguments pass itself. */
module Pipeline {
  import opened PyStr
  import opened SortedSet
  import PackagePasses
  import CopyPass
  import Patterns

  /** The three lines `add_build_optimization_args` puts in front of every document. */
  const BuildArgsHeader: string :=
    "# Build arguments for optimization\n" +
    "ARG BUILDKIT_INLINE_CACHE=1\n" +
    "ARG DOCKER_BUILDKIT=1\n"

  /** `DockerfileOptimizer.add_build_optimization_args`: the header, then the input intact. */
  function AddBuildArgs(doc: string): (r: string)
    ensures |r| == |BuildArgsHeader| + |doc|
    ensures r[..|BuildArgsHeader|] == BuildArgsHeader && r[|BuildArgsHeader|..] == doc
  {
    BuildArgsHeader + doc
  }

  /** The rewritten text, the ignore entries and the pip package list, as a function of
      the document read from disk. */
  function Rewrite(doc: string): (string, seq<string>, seq<string>) {
    var (afterPip, requirements) := PackagePasses.PipPass(PackagePasses.AptPass(doc));
    (AddBuildArgs(CopyPass.CopyPass(afterPip)), CopyPass.DockerIgnoreEntries, requirements)
  }

  /** Lines 245-248 of the optimizer: the passes in their fixed order. */
  method OptimizeDocument(doc: string) returns (content: string, ignore: seq<string>, requirements: seq<string>)
    ensures (content, ignore, requirements) == Rewrite(doc)
    ensures content[|BuildArgsHeader|..] == CopyPass.CopyPass(PackagePasses.PipPass(PackagePasses.AptPass(doc)).0)
    ensures ignore == CopyPass.DockerIgnoreEntries
    ensures StrictlyAscending(requirements)
  {
    content := PackagePasses.OptimizeAptCommands(doc);
    content, requirements := PackagePasses.OptimizePipCommands(content);
    content, ignore := CopyPass.OptimizeCopyCommands(content);
    content := AddBuildArgs(content);
  }

  /** The three rewriting passes never turn a non-empty text into an empty one. */
  lemma PassesKeepNonEmpty(doc: string)
    requires doc != []
    ensures CopyPass.CopyPass(PackagePasses.PipPass(PackagePasses.AptPass(doc)).0) != []
  {
  }

  /** Running the pipeline on its own output changes it: the build-argument header is
      prepended again. The empty document shows it. */
  lemma RewriteNotIdempotent()
    ensures Rewrite(Rewrite("").0).0 != Rewrite("").0
  {
    assert PackagePasses.AptSpans("") == [];
    assert PackagePasses.PipSpans("") == [];
    assert Patterns.CopyPairs("", 0) == [];
    assert Rewrite("").0 == BuildArgsHeader;
    PassesKeepNonEmpty(BuildArgsHeader);
  }
}
