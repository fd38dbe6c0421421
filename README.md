# ContainerImageOptimizer — a verified model of the rewrite engine and the response parser

This project models in Dafny the deterministic core of ContainerImageOptimizer:

- **The Dockerfile rewrite engine** `DockerfileOptimizer` in `dockerfile-optimizer.py`. It runs four string-to-string passes in a fixed order:
  - the apt pass merges every `RUN apt-get update…` span into one sorted `apt-get install` command after the `FROM` line;
  - the pip pass does the same for `RUN pip install` / `RUN pip3 install` and returns the package list that becomes `requirements.txt`;
  - the COPY pass groups `COPY src dest` pairs by destination and re-inserts them before the first `CMD`; it also returns the fixed `.dockerignore` list;
  - the build-arguments pass prepends a constant `ARG` header.
- **The issue report** `DockerfileAnalyzer.generate_report` of the optimizer. It stably sorts issues by severity rank and category, and writes a severity heading whenever the severity changes.
- **The analyzer's fallback parser** `_extract_data_from_response` in `dockerfile_analyzer.py`. It reads seven labelled fields, a detailed report and an optimized Dockerfile out of free text, with fixed defaults.
- **The analyzer's Markdown report** `generate_report` in `dockerfile_analyzer.py`.

Each regular expression the core uses is an explicit scanner written to follow what Python's `re` does with that one pattern. This includes the lazy groups, the lookaheads, and the backtracking of `\s+` and `:?\s*`. Read-back lemmas state what each scanner returns on a text of a given form: the span scanner (`Patterns.FindSpansAt`), the package extraction (`Patterns.InstallArgsRead`), the COPY scanner (`Patterns.CopyPairsRead`) and the parser's fields (`Analyzer.FieldCaptured`). Python's `str.find`, negative slice indices, `str.replace`, `str.split`, `str.strip` and string ordering are modelled as well. Python's `set` is a strictly ascending sequence, so `sorted(set)` is the sequence itself.

Modules, one per file:

| module | file | models |
|---|---|---|
| `PyStr` | pystr.dfy | the Python string operations the core uses |
| `SortedSet` | sortedset.dfy | a set of strings kept sorted (`set.update` then `sorted`) |
| `Patterns` | patterns.dfy | the optimizer's regular expressions as scanners |
| `PackagePasses` | packages.dfy | `optimize_apt_commands`, `optimize_pip_commands` |
| `CopyPass` | copypass.dfy | `optimize_copy_commands` |
| `Pipeline` | pipeline.dfy | `add_build_optimization_args` and the pass order |
| `IssueReport` | issuereport.dfy | the optimizer's `generate_report` |
| `Analyzer` | analyzer.dfy | `_extract_data_from_response` |
| `AnalysisReport` | analysisreport.dfy | the analyzer's `generate_report` |

The loops of the source are methods. Each is proved equal to a specification function, and the properties are proved about that function:
- the package `update` loop;
- the span-removal loops;
- the COPY grouping and emitting loops;
- the report accumulation loop;
- the `patterns` loop of the parser.

## Where the code differs from the documented behaviour

This model follows the code wherever the code and its documented behaviour disagree.

- A document without a `FROM` line is meant to be rejected as malformed, but the code has no such check. `find('FROM')` returns -1, and `find('\n', -1)` then looks only at the last character. The insertion point becomes the last index, or 0 for an empty text (`PackagePasses.FromAnchorCases`).
- Running the optimizer again on its own output is meant to change nothing, but the code prepends the build-arguments header on every run (`Pipeline.RewriteNotIdempotent`, shown on the empty document).
- The merged package list is meant to hold the packages of every continuation line of every span. The code takes only the first match of `install -y\s+(.+?)[\s\\]*\n` in each span. A span is one line plus trailing blank lines, so that match is often absent. A span without a newline contributes nothing (`PackagePasses.SinglineSpansGiveNoPackages`), yet the merged command is still emitted.
- The extraction patterns are meant to read one instruction line, but `\s*` and `\s+` in them cross newlines. The model follows `re` here.

## Model

| member | source | states |
|---|---|---|
| PyStr.Find | dockerfile-optimizer.py:66 | `str.find` gives -1 exactly when the pattern does not occur. Otherwise it gives the first index where it occurs. |
| PyStr.FindFrom | dockerfile-optimizer.py:66 | `str.find(p, start)`, with a negative start counted from the end: -1 when nothing occurs from the normalised start on, otherwise the first occurrence there. |
| PyStr.SearchFrom | dockerfile-optimizer.py:66 | Scanning from `i` finds the first occurrence at or after `i`, or -1 when there is none. |
| PyStr.SliceIndex | dockerfile-optimizer.py:67 | A Python slice bound. An in-range index is kept, a negative one counts from the end, and the result never exceeds the length. |
| PyStr.RemoveAll | dockerfile-optimizer.py:62 | `str.replace(p, '')` never lengthens the text. |
| PyStr.RemoveAllFirst | dockerfile-optimizer.py:62 | `str.replace(p, '')` deletes the leftmost occurrence of `p`, keeps the text before it, and goes on after it. With `PyStr.RemoveAllAbsent` this fixes the result. |
| PyStr.OccurrencesShift | dockerfile-optimizer.py:62 | Dropping the first character of a text moves its first occurrence of `p` one place to the left. |
| PyStr.RemoveAllAbsent | dockerfile-optimizer.py:62 | `str.replace(p, '')` leaves a text without `p` unchanged. |
| PyStr.RemoveEach | dockerfile-optimizer.py:61-62 | Removing several patterns in turn, each with `str.replace`, never lengthens the text. |
| PyStr.DropNewlines | dockerfile-optimizer.py:63 | Dropping a run of newlines leaves a suffix that does not start with a newline. It is shorter when the text started with a newline. |
| PyStr.Collapse | dockerfile-optimizer.py:63 | `re.sub(r'\n\n+', '\n\n', s)` is empty exactly when `s` is, and keeps the first character. |
| PyStr.Newlines | dockerfile-optimizer.py:63 | A run of `k` newlines. |
| PyStr.DropNewlinesRun | dockerfile-optimizer.py:63 | Dropping the leading newlines of `k` newlines and a text that does not start with one leaves that text. |
| PyStr.DropNewlinesAppend | dockerfile-optimizer.py:63 | Dropping the leading newlines only looks at the text up to its first non-newline. |
| PyStr.CollapseAppend | dockerfile-optimizer.py:63 | Texts joined at a point with no newline on the left collapse separately. |
| PyStr.CollapseRun | dockerfile-optimizer.py:63 | A run of two or more newlines at the start becomes exactly `\n\n`, and the rest is collapsed. |
| PyStr.CollapseLone | dockerfile-optimizer.py:63 | A single newline is copied. |
| PyStr.CollapseAround | dockerfile-optimizer.py:63 | `x`, two or more newlines, then `y` collapses to `x` collapsed, `\n\n`, then `y` collapsed. |
| PyStr.CollapseNoPair | dockerfile-optimizer.py:63 | A text without `\n\n` is copied unchanged. |
| PyStr.CollapseNoTriple | dockerfile-optimizer.py:63 | After the substitution no three newlines in a row remain. |
| PyStr.CollapseKeepsClean | dockerfile-optimizer.py:63 | A text without three newlines in a row is unchanged by the substitution. |
| PyStr.CollapseFixpoint | dockerfile-optimizer.py:63 | The substitution leaves a text unchanged exactly when it has no three newlines in a row. Applying it twice is the same as once. |
| PyStr.NoTripleAfterPair | dockerfile-optimizer.py:63 | A `\n\n` in front of a clean text that does not start with a newline keeps it clean. |
| PyStr.NoTripleAfterChar | dockerfile-optimizer.py:63 | One character in front of a clean text keeps it clean, unless it makes a third newline. |
| PyStr.NoTripleSuffix | dockerfile-optimizer.py:63 | Every suffix of a clean text is clean. |
| PyStr.DropPair | dockerfile-optimizer.py:63 | A run of exactly two newlines is dropped as a whole. |
| PyStr.StripLeft | dockerfile_analyzer.py:137 | Drops exactly the leading whitespace. |
| PyStr.StripRight | dockerfile_analyzer.py:137 | Drops exactly the trailing whitespace. |
| PyStr.Strip | dockerfile_analyzer.py:137 | `str.strip()` has no whitespace at either end. It equals its input exactly when the input has none there. |
| PyStr.WordEnd | dockerfile-optimizer.py:53 | The end of a word: no whitespace before it, then whitespace or the end of the text. |
| PyStr.Tokens | dockerfile-optimizer.py:53 | `str.split()` yields only non-empty, whitespace-free tokens. |
| PyStr.TokensOfJoin | dockerfile-optimizer.py:92 | Splitting a join of whitespace-free words on a whitespace separator gives back the words. |
| PyStr.TokensOfWordThen | dockerfile-optimizer.py:53 | A word followed by whitespace splits into that word, then the split of the rest. |
| PyStr.TokensAfterSpace | dockerfile-optimizer.py:53 | Leading whitespace does not change `str.split()`. |
| PyStr.Join | dockerfile-optimizer.py:56 | `sep.join(xs)`: the items with `sep` between each two. |
| PyStr.LessIrreflexive | dockerfile-optimizer.py:56 | Python's string `<`, ordered by code point, is irreflexive. |
| PyStr.LessAsymmetric | dockerfile-optimizer.py:56 | ... and asymmetric. |
| PyStr.LessTransitive | dockerfile-optimizer.py:56 | ... and transitive. |
| PyStr.LessTotal | dockerfile-optimizer.py:56 | ... and total on distinct strings, so `sorted` has exactly one answer. |
| PyStr.DigitString | dockerfile_analyzer.py:165 | The decimal rendering of a natural number is a non-empty run of digits. |
| PyStr.DigitsRoundTrip | dockerfile_analyzer.py:139 | `int()` of the decimal rendering of `n` is `n`. |
| PyStr.IntToString | dockerfile-optimizer.py:285 | `str(n)` inside an f-string: `-` and the digits of `-n` for a negative `n`, otherwise the digits. |
| PyStr.DigitsValue | dockerfile_analyzer.py:139 | `int(d)` of a run of ASCII digits, read in base 10. |
| PyStr.Upper | dockerfile-optimizer.py:308 | `str.upper()` as an ASCII case mapping: each character is mapped by itself, so the length is kept. |
| PyStr.Lower | dockerfile-optimizer.py:301 | `str.lower()` as an ASCII case mapping: each character is mapped by itself, so the length is kept. |
| SortedSet.ConsAscending | dockerfile-optimizer.py:56 | A string below every element of an ascending sequence can go in front. |
| SortedSet.AboveHead | dockerfile-optimizer.py:53 | After an insert above the head, the head is still below every element. |
| SortedSet.ElemsCons | dockerfile-optimizer.py:53 | The elements of `[y] + rest` are `y` and those of `rest`. |
| SortedSet.Insert | dockerfile-optimizer.py:53 | `set.add`: the sequence stays strictly ascending, and its elements are the old ones plus the new one. |
| SortedSet.InsertAll | dockerfile-optimizer.py:53 | `set.update`: the sequence stays strictly ascending, and its elements are the union. |
| SortedSet.ElemsEmpty | dockerfile-optimizer.py:56 | Only the empty sequence has no elements. |
| SortedSet.HeadLeast | dockerfile-optimizer.py:56 | The head of an ascending sequence is below every other element. |
| SortedSet.AscendingTail | dockerfile-optimizer.py:56 | The tail of an ascending sequence is ascending and lacks only the head. |
| SortedSet.AscendingUnique | dockerfile-optimizer.py:56 | Two strictly ascending sequences with the same elements are equal, so `sorted(set)` depends only on the set. |
| Patterns.SpanEnd | dockerfile-optimizer.py:41 | The lazy `.*?(?=\n[^\n]\|$)` ends within the text, after its start. |
| Patterns.SpanEndStops | dockerfile-optimizer.py:41 | It ends at the first position where the lookahead holds: a newline followed by a non-newline, or the end. |
| Patterns.HeadLength | dockerfile-optimizer.py:75 | The head alternation (`RUN apt-get update`, `RUN pip install`, `RUN pip3 install`) matches at `i` with some head's length, or no head occurs there. |
| Patterns.HeadLengthFound | dockerfile-optimizer.py:75 | A head length is returned only when a head of that length occurs at `i`. `None` means no head occurs there. |
| Patterns.FindSpans | dockerfile-optimizer.py:41-42 | `re.findall` with DOTALL: the leftmost head gives a span, and the scan resumes at its end. |
| Patterns.FindSpansAreSpans | dockerfile-optimizer.py:41-42 | Every span found starts with a head, and every newline in it is followed by another, so a span is one line plus trailing blank lines. |
| Patterns.FindSpansSkip | dockerfile-optimizer.py:42 | Positions where no head occurs add no span. |
| Patterns.FindSpansAt | dockerfile-optimizer.py:41-42 | When the first head from `j` on is at `i`, the spans are `s[i..SpanEnd(s, i + \|h\|)]`, then the spans from that end on. |
| Patterns.HeadLengthAt | dockerfile-optimizer.py:75 | A head at `i`, with no head of another length there, is matched with its own length. |
| Patterns.FindSpansHit | dockerfile-optimizer.py:41-42 | A head matched at `i` gives the span up to its stop, and the scan goes on from there. |
| Patterns.SpanFromHead | dockerfile-optimizer.py:41-42 | A head found at `i` yields a span that has the span shape. |
| Patterns.HeadStaysAt | dockerfile-optimizer.py:41 | The head is still at the start of the sliced span. |
| Patterns.SpanLinesBlank | dockerfile-optimizer.py:41 | Inside a span, each newline is followed by another newline. |
| Patterns.NoHeadNoSpan | dockerfile-optimizer.py:42-44 | A document that holds no head yields no span. |
| Patterns.SpaceRunEnd | dockerfile-optimizer.py:52 | The greedy `\s*` run ends at a non-space or the end of the text. |
| Patterns.SpaceRunEndSpaces | dockerfile-optimizer.py:52 | Everything the run passes over is whitespace. |
| Patterns.SpaceRunEndAt | dockerfile-optimizer.py:52 | A whitespace run followed by a non-space or the end is exactly the run. |
| Patterns.BlankRunEnd | dockerfile-optimizer.py:52 | The greedy `[\s\\]*` run ends at a character outside the class, or the end. |
| Patterns.BlankRunEndBlanks | dockerfile-optimizer.py:52 | Everything that run passes over is whitespace or a backslash. |
| Patterns.TailEnd | dockerfile-optimizer.py:52 | `[\s\\]*\n` matches up to just after a newline. A newline at the start always matches. |
| Patterns.TailEndRun | dockerfile-optimizer.py:52 | The match ends after the last newline of the `[\s\\]` run, as the greedy run backtracks to it. No match means that run holds no newline. |
| Patterns.TailBlocked | dockerfile-optimizer.py:52 | A character outside `[\s\\]` before any newline blocks the match. |
| Patterns.TailReaches | dockerfile-optimizer.py:52 | A newline reached over whitespace and backslashes is matched, and the match ends after it. |
| Patterns.LazyGroup | dockerfile-optimizer.py:52 | The lazy `(.+?)` ends at a position where `[\s\\]*\n` matches, and the match ends after a newline. |
| Patterns.LazyGroupOneLine | dockerfile-optimizer.py:52 | The group does not cross a newline. |
| Patterns.LazyGroupMinimal | dockerfile-optimizer.py:52 | The group ends at the first position where the tail matches. `None` means the tail matches at no position on the group's line. |
| Patterns.LazyGroupAt | dockerfile-optimizer.py:52 | The first position on the line where the tail matches is where the group ends. |
| Patterns.LineGroup | dockerfile-optimizer.py:52 | A one-line group ending in a character outside `[\s\\]`, then a `[\s\\]` run and a newline, is the group found. |
| Patterns.SpacedGroupWithin | dockerfile-optimizer.py:52 | `\s+` backtracked over a whitespace run: a match opens its group after the start and ends after a newline. |
| Patterns.SpacedGroupWithinShape | dockerfile-optimizer.py:52 | Over a whitespace run, the matched `\s+` is whitespace and the group is one line. |
| Patterns.SpacedGroup | dockerfile-optimizer.py:52 | `\s+(.+?)[\s\\]*\n` at a position: whitespace, then a non-empty one-line group, then a tail that ends with a newline. |
| Patterns.SpacedGroupShape | dockerfile-optimizer.py:52 | The matched `\s+` is whitespace and the group is one line. |
| Patterns.SpacedGroupAt | dockerfile-optimizer.py:52 | With the whole whitespace run kept, the group found from its end is the match. |
| Patterns.LineSpacedGroup | dockerfile-optimizer.py:52 | Whitespace, a one-line group not ending in `[\s\\]`, a `[\s\\]` run and a newline: the match captures that group. |
| Patterns.SpacedGroupUnfold | dockerfile-optimizer.py:52 | `\s+` tries the whole whitespace run first. |
| Patterns.SpacedGroupFirst | dockerfile-optimizer.py:52 | The whole run is kept when the group matches after it. |
| Patterns.NoSpaceNoGroup | dockerfile-optimizer.py:52 | `\s+` does not match at a non-space. |
| Patterns.OneLine | dockerfile-optimizer.py:52 | A range with no newline gives a slice with no newline. |
| Patterns.InstallArgsFrom | dockerfile-optimizer.py:52-53 | A match from `j` on is a non-empty, one-line text. It exists only when the span has a newline. |
| Patterns.InstallArgsSkip | dockerfile-optimizer.py:52 | Positions without the keyword are skipped. |
| Patterns.InstallArgs | dockerfile-optimizer.py:52-53 | `pkg_matches[0]` is a non-empty, one-line text. It exists only when the span has a newline. |
| Patterns.InstallArgsFirst | dockerfile-optimizer.py:52-53 | `pkg_matches[0]` is the group matched after the first keyword, when one matches there. |
| Patterns.InstallArgsHit | dockerfile-optimizer.py:52 | A keyword followed by a match gives that match's group. |
| Patterns.InstallArgsAt | dockerfile-optimizer.py:52-53 | After the first keyword: whitespace, a one-line group not ending in `[\s\\]`, a `[\s\\]` run and a newline. `pkg_matches[0]` is that group. |
| Patterns.InstallArgsRead | dockerfile-optimizer.py:52-53 | `prefix + kw + sep + args + t + "\n" + rest` gives back `args`, when `kw` does not occur in `prefix`, `sep` is whitespace, `args` is one line without whitespace at its start or `[\s\\]` at its end, and `t` is whitespace and backslashes. |
| Patterns.SpanPackages | dockerfile-optimizer.py:52-53 | A span with no newline contributes no packages. |
| Patterns.CopySource | dockerfile-optimizer.py:134 | `(.+?)\s+(.+?)[\s\\]*\n` with a lazy source: a match ends after its start. Since `\s+` cannot start at a non-space, the source is only cut where whitespace follows. |
| Patterns.CopyWithin | dockerfile-optimizer.py:134 | `COPY\s+` with the whitespace run backtracked: a match ends after its start. |
| Patterns.CopyAt | dockerfile-optimizer.py:134 | A COPY match at `j` ends after `j`. |
| Patterns.CopyPairs | dockerfile-optimizer.py:134-135 | `re.findall` of the COPY pattern: each match gives a pair, and the scan resumes after it. |
| Patterns.CopySourceShape | dockerfile-optimizer.py:134 | The source and destination of a match are non-empty and one line. |
| Patterns.CopyWithinShape | dockerfile-optimizer.py:134 | ... also after `COPY\s+`. |
| Patterns.CopyPairsShape | dockerfile-optimizer.py:134-135 | Every pair found holds a non-empty, one-line source and destination. |
| Patterns.CopySourceSkip | dockerfile-optimizer.py:134 | The lazy source grows over non-spaces without a match. |
| Patterns.CopySourceStep | dockerfile-optimizer.py:134 | One non-space more in the source. |
| Patterns.CopySourceHit | dockerfile-optimizer.py:134 | A source followed by a match of `\s+(.+?)[\s\\]*\n` is the match. |
| Patterns.NoSpaceOneLine | dockerfile-optimizer.py:134 | A whitespace-free range is one line. |
| Patterns.CopyAtLine | dockerfile-optimizer.py:134 | `COPY`, whitespace, a source, whitespace, a destination, a `[\s\\]` run and a newline is matched with that source and destination. |
| Patterns.DestinationGroup | dockerfile-optimizer.py:134 | Whitespace, a whitespace-free destination not ending in a backslash, a `[\s\\]` run and a newline: the destination is the group. |
| Patterns.SourceGroup | dockerfile-optimizer.py:134 | A whitespace-free source before such a destination is the lazy source. |
| Patterns.CopyAtFirst | dockerfile-optimizer.py:134 | `COPY\s+` keeps the whole whitespace run when the rest matches after it. |
| Patterns.CopyAtUnfold | dockerfile-optimizer.py:134 | A COPY match at `j` tries `\s+` over the whole run first. |
| Patterns.CopyWithinFirst | dockerfile-optimizer.py:134 | The whole run is kept when the rest matches after it. |
| Patterns.CopyPairsSkip | dockerfile-optimizer.py:135 | Positions without `COPY` add no pair. |
| Patterns.CopyPairsHit | dockerfile-optimizer.py:135 | A match at `j` gives its pair, and the scan goes on after it. |
| Patterns.CopyLinePieces | dockerfile-optimizer.py:134 | Where the pieces of `prefix + COPY sep1 src sep2 dest t \n rest` sit. |
| Patterns.CopyPairsLine | dockerfile-optimizer.py:134-135 | A COPY line after a text without `COPY` gives its pair first, and the scan resumes after the line's newline. |
| Patterns.CopyPairsRead | dockerfile-optimizer.py:134-135 | `prefix + "COPY" + sep1 + src + sep2 + dest + t + "\n" + rest` gives `(src, dest)` first, then the pairs after that line. Conditions: no `COPY` in `prefix`, whitespace separators, whitespace-free `src` and `dest`, `dest` not ending in a backslash, `t` whitespace and backslashes. |
| Patterns.NoCopyNoPairs | dockerfile-optimizer.py:135-137 | A document without `COPY` yields no pairs. |
| PackagePasses.HeadsAreValid | dockerfile-optimizer.py:41 | The apt and pip heads are non-empty and one line. |
| PackagePasses.AptSpans | dockerfile-optimizer.py:41-42 | The apt spans: `re.findall` of the apt pattern over the document. |
| PackagePasses.PipSpans | dockerfile-optimizer.py:75-76 | The pip spans: `re.findall` of the pip pattern over the document. |
| PackagePasses.AptCommand | dockerfile-optimizer.py:45-58 | The merged apt command, with the sorted packages joined by ` \\\n        `. |
| PackagePasses.AptPass | dockerfile-optimizer.py:38-69 | The apt pass: no span leaves the document alone; otherwise the spans are removed, newlines collapsed, and the command inserted after the `FROM` line. |
| PackagePasses.PipPass | dockerfile-optimizer.py:72-103 | The pip pass in the same way, with the requirements command, and the sorted packages. |
| PackagePasses.RequirementsText | dockerfile-optimizer.py:92 | The `requirements.txt` text: the packages joined by newlines. |
| PackagePasses.PackagesAreWords | dockerfile-optimizer.py:53 | Every merged package is non-empty and has no whitespace. |
| PackagePasses.RequirementsReadBack | dockerfile-optimizer.py:90-92 | Splitting the `requirements.txt` text gives back exactly the package list, in order. |
| PackagePasses.SortedPackages | dockerfile-optimizer.py:50-56 | The merged package list is strictly ascending with no duplicates. It holds exactly the tokens of `pkg_matches[0]` of each span. |
| PackagePasses.MergedPackagesDeterministic | dockerfile-optimizer.py:56 | Spans with the same package set give the same list, whatever their order. |
| PackagePasses.SinglineSpansGiveNoPackages | dockerfile-optimizer.py:52-53 | When no span holds a newline, the package list is empty. |
| PackagePasses.Update | dockerfile-optimizer.py:53 | `packages.update(tokens)`: stays strictly ascending and gains exactly the tokens. |
| PackagePasses.MergePackages | dockerfile-optimizer.py:50-53 | The collecting loop yields the sorted package list: ascending, and exactly the package set. |
| PackagePasses.FromAnchor | dockerfile-optimizer.py:66 | The insertion index lies within the text. |
| PackagePasses.FromAnchorCases | dockerfile-optimizer.py:66-67 | With a `FROM` and a newline after it, the index is the first newline at or after the first `FROM`. Otherwise Python's -1 slice puts it at the last index, or 0 for an empty text. |
| PackagePasses.SpliceAfterFrom | dockerfile-optimizer.py:67 | The result is the text up to the index, then `\n` and the command, then the rest of the text, both parts unaltered. |
| PackagePasses.Cleaned | dockerfile-optimizer.py:61-63 | After the spans are removed and newlines collapsed, no three newlines in a row remain. |
| PackagePasses.AptPassIdentity | dockerfile-optimizer.py:42-69 | A document without `RUN apt-get update` passes through unchanged. |
| PackagePasses.PipPassIdentity | dockerfile-optimizer.py:76-103 | A document without a pip head passes through unchanged, with no packages. |
| PackagePasses.RemoveSpans | dockerfile-optimizer.py:61-62 | The replace loop removes every occurrence of each span, in order. |
| PackagePasses.OptimizeAptCommands | dockerfile-optimizer.py:38-69 | Computes the apt pass. With no span, the document is returned unchanged. |
| PackagePasses.OptimizePipCommands | dockerfile-optimizer.py:72-103 | Computes the pip pass. The returned package list is the `requirements.txt` content: strictly ascending and exactly the package set of the spans. |
| CopyPass.DockerIgnoreShape | dockerfile-optimizer.py:108-131 | The ignore list has 22 entries, none repeated. |
| CopyPass.FirstSeen | dockerfile-optimizer.py:139-143 | The destinations, without repeats: exactly those of the pairs. |
| CopyPass.SourcesFor | dockerfile-optimizer.py:139-143 | `copy_groups[d]`: the sources of the pairs with destination `d`, in document order. |
| CopyPass.FirstIndex | dockerfile-optimizer.py:139-143 | The index of a destination's first pair, or the length when it has none. |
| CopyPass.FirstSeenOrder | dockerfile-optimizer.py:139-154 | Groups come in the order in which their destination first appears. |
| CopyPass.FirstIndexPrefix | dockerfile-optimizer.py:140-143 | Appending a pair does not move an earlier destination's first index. |
| CopyPass.FirstIndexUnique | dockerfile-optimizer.py:140-143 | The first pair with a destination is where it first appears. |
| CopyPass.FirstIndexBound | dockerfile-optimizer.py:140-143 | A seen destination has a first pair. |
| CopyPass.FirstIndexAbsent | dockerfile-optimizer.py:141-142 | An unseen destination first appears at the pair that adds it. |
| CopyPass.GroupingConserves | dockerfile-optimizer.py:140-143 | Every pair's source ends up in its destination's group. |
| CopyPass.SourcesNonEmpty | dockerfile-optimizer.py:141-143 | Every group has at least one source. |
| CopyPass.SourcesOfUnseen | dockerfile-optimizer.py:141-143 | A destination of no pair has no sources. |
| CopyPass.GroupedCommands | dockerfile-optimizer.py:153-159 | One COPY command per destination. |
| CopyPass.GroupCommand | dockerfile-optimizer.py:155-159 | `COPY s d` for one source, `COPY s1 … sn d/` for several. |
| CopyPass.ExampleFirstSeen | dockerfile-optimizer.py:139-143 | `A→/x, B→/x, C→/y` groups into `/x`, then `/y`. |
| CopyPass.ExampleSources | dockerfile-optimizer.py:139-143 | ... with sources `A, B` and `C`, in document order. |
| CopyPass.GroupingExample | dockerfile-optimizer.py:153-159 | ... giving `COPY A B /x/` (several sources) and `COPY C /y` (one source). |
| CopyPass.CopyTexts | dockerfile-optimizer.py:146-150 | The originals are deleted by the text `COPY src dest`, rebuilt with single spaces. |
| CopyPass.CopyText | dockerfile-optimizer.py:148 | The f-string `COPY {cmd_src} {cmd_dest}`. |
| CopyPass.CmdAnchor | dockerfile-optimizer.py:162-164 | The insertion point is the first `CMD`, or the end of the text when there is none. |
| CopyPass.CopyPassIdentity | dockerfile-optimizer.py:137-173 | A document without `COPY` passes through unchanged. |
| CopyPass.CopyPass | dockerfile-optimizer.py:133-173 | The COPY pass: no pair leaves the document alone; otherwise the rebuilt texts are removed and the grouped commands inserted at the first `CMD`. |
| CopyPass.GroupByDestination | dockerfile-optimizer.py:139-143 | The dict loop yields the destinations in first-seen order, and each destination's sources in document order. |
| CopyPass.EmitGroups | dockerfile-optimizer.py:153-159 | The emitting loop writes one command per destination, in order: `COPY s d` for one source, `COPY s1 … sn d/` for several. |
| CopyPass.RemoveCopies | dockerfile-optimizer.py:146-150 | The replace loop deletes each rebuilt COPY text, in order. |
| CopyPass.OptimizeCopyCommands | dockerfile-optimizer.py:106-173 | Computes the COPY pass and always returns the fixed ignore list. |
| Pipeline.AddBuildArgs | dockerfile-optimizer.py:176-182 | The result is the fixed three-line header followed by the input, which is an exact suffix. |
| Pipeline.Rewrite | dockerfile-optimizer.py:245-248 | The rewritten document, the ignore list and the package list of the passes in their order. |
| Pipeline.OptimizeDocument | dockerfile-optimizer.py:245-248 | The passes run apt, pip, COPY, build arguments. The text after the header is the COPY pass of the pip pass of the apt pass. The ignore list is constant, and the requirements are strictly ascending. |
| Pipeline.PassesKeepNonEmpty | dockerfile-optimizer.py:38-173 | The three rewriting passes never empty a non-empty document. |
| Pipeline.RewriteNotIdempotent | dockerfile-optimizer.py:245-248 | Running the pipeline on its own output changes it. |
| IssueReport.Rank | dockerfile-optimizer.py:298-301 | The severity rank: 1, 2 or 3 exactly for case-insensitive `high`, `medium` or `low`, and 4 for anything else. |
| IssueReport.KeyLessIrreflexive | dockerfile-optimizer.py:299-302 | Issues with equal (rank, category) keys are not ordered. |
| IssueReport.KeyLessAsymmetric | dockerfile-optimizer.py:299-302 | The key order is asymmetric. |
| IssueReport.KeyLeqLess | dockerfile-optimizer.py:299-302 | Not-after then before gives before. |
| IssueReport.InsertIssue | dockerfile-optimizer.py:299-302 | Inserting an issue keeps every issue: the result is a permutation plus the new one. |
| IssueReport.PrependSorted | dockerfile-optimizer.py:299-302 | An issue not after any element of a sorted list can go in front. |
| IssueReport.InsertIssueSorted | dockerfile-optimizer.py:299-302 | Insertion keeps the list sorted by key. |
| IssueReport.SortIssues | dockerfile-optimizer.py:299-302 | `sorted` yields a permutation of the issues, ordered by (rank, category). |
| IssueReport.WithKeyCons | dockerfile-optimizer.py:299-302 | The issues with one key, in a list with a head. |
| IssueReport.KeyedApart | dockerfile-optimizer.py:299-302 | Two issues in key order do not share a key. |
| IssueReport.SwapEmpty | dockerfile-optimizer.py:299-302 | An empty block can move past another. |
| IssueReport.InsertIssuePastHead | dockerfile-optimizer.py:299-302 | Insertion past a smaller head keeps the same-key order. |
| IssueReport.InsertIssueStable | dockerfile-optimizer.py:299-302 | Insertion puts the new issue before the old issues with the same key. |
| IssueReport.SortIssuesStable | dockerfile-optimizer.py:299-302 | The sort is stable: issues with equal keys keep their input order. |
| IssueReport.AppendBlock | dockerfile-optimizer.py:305-315 | Appending the block of issue `i` extends the report of the first `i` issues to the first `i + 1`. |
| IssueReport.RenderIssue | dockerfile-optimizer.py:306-315 | A severity heading is written exactly when the raw severity differs from the current one, and the current severity becomes the issue's. |
| IssueReport.GenerateReport | dockerfile-optimizer.py:279-317 | The report is the fixed head, then each sorted issue's block, with a heading exactly where the severity changes. |
| IssueReport.ReportHead | dockerfile-optimizer.py:281-296 | The scores and metrics, up to the `Issues Found` heading. |
| IssueReport.SeverityHeading | dockerfile-optimizer.py:308 | `### {SEVERITY} Severity Issues`. |
| IssueReport.IssueBody | dockerfile-optimizer.py:310-315 | Category, description, recommendation, the line number when it is neither missing nor 0, and a blank line. |
| IssueReport.OpensGroup | dockerfile-optimizer.py:304-307 | Issue `i` gets a heading when it is the first or its raw severity differs from the previous one. |
| IssueReport.Blocks | dockerfile-optimizer.py:305-315 | The text of the first `n` issues, each with its heading when it opens a group. |
| Analyzer.LiteralMatchesSelf | dockerfile_analyzer.py:124-130 | A label matches itself, with or without IGNORECASE. |
| Analyzer.LabelAtSelf | dockerfile_analyzer.py:124-130 | A label written at `j` matches there. |
| Analyzer.LastOpen | dockerfile_analyzer.py:124-130 | The last position in a range where the group can open, or none. |
| Analyzer.GroupStart | dockerfile_analyzer.py:124-130 | `:?\s*` before a group, with backtracking: the group opens at a position reached over at most one colon and whitespace. |
| Analyzer.DigitRunEnd | dockerfile_analyzer.py:124-130 | `(\d+)` runs over digits up to a non-digit or the end. |
| Analyzer.LineEnd | dockerfile_analyzer.py:127 | `([^\n]+)` runs up to a newline or the end. |
| Analyzer.StopEnd | dockerfile_analyzer.py:143 | `(.+?)(?=Optimized Dockerfile:\|$)` stops at the first stop label or the end. |
| Analyzer.GroupEnd | dockerfile_analyzer.py:124-130 | An opened group ends after it starts, within the text. |
| Analyzer.GroupAt | dockerfile_analyzer.py:124-130 | A captured group lies after the label and is non-empty. |
| Analyzer.GroupAtShape | dockerfile_analyzer.py:124-130 | The group holds maximal digits, one maximal line, text up to the first stop, or everything to the end, depending on the pattern. |
| Analyzer.Search | dockerfile_analyzer.py:134 | `re.search` finds the first position where the whole pattern matches. |
| Analyzer.GroupText | dockerfile_analyzer.py:137-139 | A captured group is non-empty. A digit group holds only digits. A line group has no newline. |
| Analyzer.GroupChars | dockerfile_analyzer.py:137-139 | The characters of a digit group are digits, and a line group has no newline. |
| Analyzer.CaptureShape | dockerfile_analyzer.py:134-141 | `match.group(1)` is non-empty, all digits for an integer pattern, and one line for the size. |
| Analyzer.Capture | dockerfile_analyzer.py:134-139 | `match.group(1)` of the first match of `label:?\s*group`, or nothing without a match. |
| Analyzer.NoLabelNoCapture | dockerfile_analyzer.py:134-135 | A response where the label never occurs gives no match. |
| Analyzer.IntLabel | dockerfile_analyzer.py:124-141 | An integer field is 0 when its pattern does not match. |
| Analyzer.SizeText | dockerfile_analyzer.py:136-137 | `estimated_size` is "unknown" without a match, and one line with one. |
| Analyzer.TextLabel | dockerfile_analyzer.py:143-149 | The report or Dockerfile text is "" without a match, and stripped otherwise. |
| Analyzer.SameFields | dockerfile_analyzer.py:151-157 | Results that agree on all seven keyed fields and both texts are equal. |
| Analyzer.Store | dockerfile_analyzer.py:136-141 | Field routing: only the key's field changes. A metric key leaves the scores alone, and a score key leaves the metrics alone. |
| Analyzer.ApplyPattern | dockerfile_analyzer.py:134-141 | One iteration changes no field but its key's. |
| Analyzer.ApplyPatternsStep | dockerfile_analyzer.py:133 | The loop over `i + 1` keys is the loop over `i` keys, then one more iteration. |
| Analyzer.ApplyPatternOwn | dockerfile_analyzer.py:134-141 | An iteration on an untouched field stores the captured value, or keeps the default without a match. |
| Analyzer.ApplyPatternsGet | dockerfile_analyzer.py:109-141 | After the loop over distinct keys, each key in it holds its captured value or default, and every other field its default. |
| Analyzer.ParseGet | dockerfile_analyzer.py:107-157 | Each keyed field of the result is its captured value, or its default without a match. |
| Analyzer.FieldAgrees | dockerfile_analyzer.py:133-141 | After the loop, each keyed field agrees with the result. |
| Analyzer.FillFields | dockerfile_analyzer.py:133-141 | The loop over a complete list of distinct keys gives the result's seven fields, with both texts still "". |
| Analyzer.PatternKeysComplete | dockerfile_analyzer.py:123-131 | The `patterns` dict has seven distinct keys covering every field. |
| Analyzer.PatternsFillFields | dockerfile_analyzer.py:133-141 | The loop over the dict fills the result's seven fields. |
| Analyzer.RunPattern | dockerfile_analyzer.py:134-141 | One loop body computes one iteration. |
| Analyzer.RunPatterns | dockerfile_analyzer.py:133-141 | The `for key, pattern in patterns.items()` loop computes the loop function. |
| Analyzer.ExtractData | dockerfile_analyzer.py:107-157 | `_extract_data_from_response` returns exactly the parse of the response. |
| Analyzer.ParseDefaults | dockerfile_analyzer.py:109-157 | A response where no label occurs parses to the defaults. These are 0 for every integer, "unknown" for the size, and "" for both texts. |
| Analyzer.Parse | dockerfile_analyzer.py:107-157 | The result, field by field, from the seven patterns and the two text patterns. |
| Analyzer.KeyLabel | dockerfile_analyzer.py:123-131 | The label each key of the `patterns` dict searches for. |
| Analyzer.KeyTail | dockerfile_analyzer.py:123-131 | `([^\n]+)` for the size, `(\d+)` for every other key. |
| Analyzer.DigitRunEndAt | dockerfile_analyzer.py:124-130 | The digit run ends where the digits do. |
| Analyzer.LineEndAt | dockerfile_analyzer.py:127 | The line group ends at the newline. |
| Analyzer.StopEndAt | dockerfile_analyzer.py:143 | The lazy report group ends at the first stop. |
| Analyzer.CaptureFound | dockerfile_analyzer.py:134-139 | The capture is the group after the label where the search stopped. |
| Analyzer.GroupAtIs | dockerfile_analyzer.py:124-130 | The group is the span from its start to its end. |
| Analyzer.SearchFirst | dockerfile_analyzer.py:134 | The search stops at the first label occurrence that is followed by a group. |
| Analyzer.CapturedText | dockerfile_analyzer.py:134-139 | The capture is the text of the group found by the search. |
| Analyzer.FirstCaptured | dockerfile_analyzer.py:134-139 | The first label occurrence followed by a group is captured. |
| Analyzer.StartAfterColon | dockerfile_analyzer.py:124-130 | After `Label:` and whitespace, the group opens at the first non-space character. |
| Analyzer.FieldPieces | dockerfile_analyzer.py:124-130 | Where the label, the whitespace and the text sit in `prefix + label: sep text rest`. |
| Analyzer.FieldCaptured | dockerfile_analyzer.py:134-139 | A field written after a prefix where the label does not occur is captured as its text. |
| Analyzer.DigitsEnd | dockerfile_analyzer.py:124-130 | A digit text not followed by a digit is a whole group. |
| Analyzer.LineEnds | dockerfile_analyzer.py:127 | A one-line text followed by a newline or the end is a whole group. |
| Analyzer.StopEnds | dockerfile_analyzer.py:143 | A text followed by the first stop is a whole group. |
| Analyzer.IntFieldRoundTrip | dockerfile_analyzer.py:124-141 | Writing `Label:` whitespace `n` and reading it back gives `n`. The label must not occur earlier, and no digit may follow. |
| Analyzer.LineCaptured | dockerfile_analyzer.py:127 | A one-line field is captured as its line. |
| Analyzer.SizeRoundTrip | dockerfile_analyzer.py:136-137 | Writing `Estimated Size:` and a stripped one-line size, then reading it back, gives the size. |
| Analyzer.NoStopInside | dockerfile_analyzer.py:143 | A text without the stop keeps none inside the whole response, and the stop follows it. |
| Analyzer.StopFieldPieces | dockerfile_analyzer.py:143 | Where the pieces of `label: sep text stop rest` sit. |
| Analyzer.StopFieldEnd | dockerfile_analyzer.py:143 | The lazy group over such a text ends at the stop. |
| Analyzer.StopCaptured | dockerfile_analyzer.py:143 | A field followed by the stop, with no stop inside it, is captured as its text. |
| Analyzer.ReportRoundTrip | dockerfile_analyzer.py:143-145 | `Detailed Report:` text `Optimized Dockerfile:` reads back as the stripped text. |
| Analyzer.ToEndCaptured | dockerfile_analyzer.py:147 | A field running to the end is captured as all of it. |
| Analyzer.DockerfileRoundTrip | dockerfile_analyzer.py:147-149 | `Optimized Dockerfile:` text reads back as the stripped text. |
| AnalysisReport.LabelAtFirst | dockerfile_analyzer.py:134 | A label matching at `k` matches its first two characters there. |
| AnalysisReport.NoLabelInHead | dockerfile_analyzer.py:134 | A label cannot match where its first two characters are not. |
| AnalysisReport.SecurityHeadFree | dockerfile_analyzer.py:161-165 | `Security Score` cannot start inside the report's heading. |
| AnalysisReport.ScoreLinePieces | dockerfile_analyzer.py:165 | Where the label, the value and `/` sit in a `- Label: n/100` line. |
| AnalysisReport.ReportStart | dockerfile_analyzer.py:161-165 | The report starts with its heading and the security score line. |
| AnalysisReport.LineAt | dockerfile_analyzer.py:165 | Where the score line's pieces sit in the whole report. |
| AnalysisReport.ScoreReadBack | dockerfile_analyzer.py:165 | A score line after a head free of its label reads back as its value. |
| AnalysisReport.SecurityScoreReadBack | dockerfile_analyzer.py:161-165 | Parsing the report gives back its security score. This holds when the score is not negative. |
| AnalysisReport.FormatReport | dockerfile_analyzer.py:159-182 | The Markdown report, section by section. |

## Left out

- The LLM: `ChatOpenAI`, the prompt templates and `invoke`. They are foreign, nondeterministic network calls. Their output enters the model only as the `response` text of `Analyzer.ExtractData`.
- File and OS I/O: reading the Dockerfile, the `requirements.txt` write and the `.dockerignore` existence check and write. `PackagePasses.OptimizePipCommands` returns the sorted package list instead of writing it. `CopyPass.OptimizeCopyCommands` returns the ignore list. The environment-variable lookup is left out too.
- JSON decoding of the LLM response, dataclass construction from it, and the exception re-wrapping: these are library behaviour.
- The `main` functions and `main.py`: orchestration and printing.
- `\d` in the parser patterns: only ASCII digits are modelled. Python also accepts other Unicode decimal digits, and `int()` converts them.
- IGNORECASE: only ASCII case and the equivalences that reach the labels' letters are modelled. `str.upper`/`str.lower` in the issue report map ASCII letters only.
- AnalysisReport.FormatReport: the layout is the definition, section by section. The read-back is proved for the security score only (`AnalysisReport.SecurityScoreReadBack`), not for the other fields.
- AnalysisReport.SecurityScoreReadBack: proved only for a score of 0 or more. A negative score renders with `-`, which `\d+` does not read as that number.
- Analyzer.IntFieldRoundTrip: the label must not occur earlier in the response. The round trip says nothing about a response where it does.
- The apt/pip and COPY passes do not state that their output leaves out every original span or pair. The removal is by text equality, and a rebuilt COPY text can miss originals with other spacing. What is stated is how one `str.replace` removes text (`PyStr.RemoveAllFirst`, `PyStr.RemoveAllAbsent`), that the loop applies it to each span or rebuilt text in turn (`PackagePasses.RemoveSpans`, `CopyPass.RemoveCopies`), and the insertion step around it.
- The read-back lemmas of the scanners (`Patterns.InstallArgsRead`, `Patterns.CopyPairsRead`) cover lines of the stated form. Lines that match only through `\s+` crossing a newline, or with whitespace inside a COPY source, are covered by the scanner definitions but by no read-back lemma.
- The requirements command (`PackagePasses.PipCommand`, lines 80-82 of `dockerfile-optimizer.py`) is a constant text, so it has no row above.
