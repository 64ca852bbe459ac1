# Repository explainer: retrieval, path and document logic

This project models the deterministic core of a tool that explains a source
repository.

- **Index build.** It collects the indexable files, cuts each into overlapping
  line windows and assembles chunk metadata and texts in lockstep.
- **Retrieval.** It maps vector-search ids back to chunks, renders
  de-duplicated citations, and pastes truncated snippets into an offline answer.
- **Ignore rule.** One deny rule serves every directory walk.
- **Next.js App Router map.** It lists route pages with their URLs and the
  local files each page imports, and renders that map as Markdown.
- **Mermaid diagrams.** It builds node identifiers, the priority order and node
  cap, label shortening, edge filtering and the TypeScript dependency graph.
- **Generated documents.** It renders the file tree, finds notebooks,
  classifies the project (Python, Node, notebook/ML), picks the onboarding
  template and lays out the command lists the templates number or bullet.
- **Entry points.** A decision table picks Next.js, Python or Unknown. It also
  produces the ordered lists of entry files and npm run commands.

Each Dafny module follows one source file:

| module | file |
|---|---|
| `Indexer` | `src/indexer.py` |
| `Rag` | `src/rag.py` |
| `FileFilter` | `src/file_filter.py` |
| `TsMap` | `src/ts_map.py` |
| `Diagram` | `src/diagram.py` |
| `Docs` | `src/docs.py` |
| `EntryPoints` | `src/entry_points.py` |

`Strings`, `Seqs` and `Ordering` hold the Python built-ins the code relies on:

- `str.strip`, `str.lower`, `str.replace`, `sep.join` and slicing;
- stable de-duplication;
- `sorted()`, as an insertion sort under a total preorder.

`Wrappers` holds `Option` and `Result`.

The outside world comes in as parameters:

- **File existence** is membership in a set of relative paths.
- **A directory walk** is a tree of entries in listing order. A file size is
  `None` when `getsize` fails.
- **Regular-expression captures and `parse_imports` results** are given
  sequences.
- **`normpath(join(dirname(..), ..))` and `relpath`** are function parameters.
- **A file's text** is its sequence of lines.
- **`package.json`** is `None` when missing or unparseable. Its scripts are a
  dict in insertion order.
- **Python dicts** are sequences of entries in insertion order.
- **Python sets fed to the diagram builders** are sequences without repeats, in
  iteration order.

Termination of the line chunker:

- `chunk_by_lines` never ends when `1 <= lines_per_chunk <= overlap` and the
  text is longer than one window, because the cursor falls back to 0 every time.
- `Indexer.ChunkByLines` requires `CursorAdvances`: at least one line per
  window, and an overlap smaller than the window unless the text fits in one
  window. Every caller passes the defaults 200/30, which satisfy it.
- `Indexer.CursorStalls` states the stall.

## Model

| member | source | states |
|---|---|---|
| Indexer.ReadTextFile | src/indexer.py:20-27 | the text is at most `max_chars` long and a prefix of the file's contents, is the whole contents when they fit, and is `""` when the file cannot be read |
| Indexer.ChunkByLines | src/indexer.py:30-46 | the cursor loop returns exactly the chunks of the non-blank windows, in window order (`ChunksOf`), under the termination condition |
| Indexer.WindowsShape | src/indexer.py:33-45 | windows exist iff the text is non-empty. The first starts at line 0 and each lies within the text. None spans more than `lines_per_chunk` lines, and all but the last span exactly that many. Starts strictly increase. With a non-negative overlap, each window starts `overlap` lines before the previous one ends, and the last ends at line n |
| Indexer.WindowsCover | src/indexer.py:41-45 | with a non-negative overlap, every line of the text lies in some window: no gaps |
| Indexer.CursorStalls | src/indexer.py:41-45 | with `0 <= lines_per_chunk <= overlap` and more lines than one window, the first window does not reach the end and the next cursor is 0 again, so the loop never ends |
| Indexer.TwoHundredFiftyLines | src/indexer.py:35-45 | 250 lines with 200/30 give the windows `[0,200)` and `[170,250)`, that is, lines 1-200 and 171-250 |
| Indexer.ShortTextOneWindow | src/indexer.py:35-45 | a text of 1 to `lines_per_chunk` lines is a single window, whatever the overlap |
| Indexer.KeptChunksSound | src/indexer.py:38-40 | every kept chunk comes from one of the windows: it lies within the text, carries that window's stripped text, and that text is non-empty |
| Indexer.KeptChunksComplete | src/indexer.py:38-40 | every window whose stripped text is non-empty contributes its chunk |
| Indexer.KeptChunksOrdered | src/indexer.py:35-45 | kept chunks come in strictly increasing start order when the windows' starts increase |
| Indexer.WindowTextEmpty | src/indexer.py:38-39 | a window's stripped join is empty iff every one of its lines is blank |
| Indexer.ChunksWellFormed | src/indexer.py:36-40 | every chunk satisfies `1 <= start <= end <= n` and spans at most `lines_per_chunk` lines. Its text is the stripped join of its lines and is never empty. Chunks come in strictly increasing start order |
| Indexer.NoChunksIffBlank | src/indexer.py:35-45 | with a non-negative overlap, a text yields no chunk iff every line is blank |
| Indexer.ShortTextOneChunk | src/indexer.py:35-45 | a non-blank text of at most `lines_per_chunk` lines yields exactly the chunk `(1, n, strip(join(lines)))` |
| Indexer.EmptyTextNoChunks | src/indexer.py:33-35 | an empty text yields no chunk |
| Indexer.KeptFilesOf | src/indexer.py:53-63 | the files loop keeps, in listing order, exactly the files whose name is not ignored and whose size is known and at most 2,000,000 bytes |
| Indexer.Descend | src/indexer.py:51-52 | the walk descends, in order, into exactly the subdirectories whose name is not ignored |
| Indexer.Walk | src/indexer.py:51-63 | one step of the top-down walk: a directory's own kept files, then the files of its kept subdirectories |
| Indexer.WalkFilesExact | src/indexer.py:49-64 | the walk returns a path iff it is eligible. It returns no ignored name, nothing under a pruned directory and no file that is too large or of unknown size. It returns every file that passes all three tests |
| Indexer.CollectCodeFiles | src/indexer.py:49-64 | `collect_code_files` returns exactly the eligible files under the repository's ignore rule |
| Indexer.AppendChunks | src/indexer.py:79-81 | one file's chunks are appended to both lists, so the metadata and the texts stay the same length, and each text equals its metadata's text |
| Indexer.BuildIndex | src/indexer.py:72-84 | the result is the `ValueError` (with its message) iff no chunk was produced. Otherwise its metadata is the corpus's chunks in file order and stays aligned position by position with the texts |
| Indexer.CorpusMetasProvenance | src/indexer.py:75-81 | each metadata entry names a collected file. It lies within that file's lines and carries that window's non-empty stripped text |
| Indexer.CorpusEmptyIffAllBlank | src/indexer.py:75-84 | the corpus is empty (the error case) iff every collected file is whitespace only |
| Rag.LiveIds | src/rag.py:16-18 | the live ids are exactly the search ids other than `-1`, and there are no more of them than search ids |
| Rag.LiveIdsAppend | src/rag.py:16-18 | filtering the sentinel distributes over concatenation, so live ids keep search order and repeats |
| Rag.LiveIdsSingle | src/rag.py:16-18 | a single id is kept when live and dropped when it is `-1` |
| Rag.Retrieved | src/rag.py:15-21 | the k-th result is `metas[id]` for the k-th live id, in search order |
| Rag.Retrieve | src/rag.py:15-21 | the loop over the search ids returns `Retrieved`: sentinels skipped, other ids looked up by position |
| Rag.RetrievedBounds | src/rag.py:13-21 | at most `top_k` results, each being `metas[id]` for some non-sentinel id of the search |
| Rag.AllSentinelRetrievesNothing | src/rag.py:16-18 | a search whose every id is `-1` retrieves nothing |
| Rag.NoSentinelRetrievesAll | src/rag.py:16-19 | a search without sentinels looks up every id, in order |
| Rag.Citations | src/rag.py:25-28 | one citation per chunk, in order, each `"{rel} (lines {start}-{end})"` |
| Rag.FormatCitations | src/rag.py:24-38 | the result has no repeats and is no longer than the input. It holds exactly the citations of the chunks, in first-occurrence order (`Distinct`) |
| Rag.CitationDeterminesLines | src/rag.py:28-36 | two citations of one file are equal iff their line ranges are equal, so de-duplication merges only repeated hits on the same range |
| Rag.Snippets | src/rag.py:42 | one snippet per chunk: a prefix of its text, at most 1200 characters, and the whole text when it is shorter |
| Rag.BasicAnswer | src/rag.py:41-52 | the answer opens with the fixed header and the question, and ends with the joined snippets and a newline |
| Rag.AnswerContextSnoc | src/rag.py:42 | snippets are joined in chunk order: one more chunk appends the separator and its snippet |
| Rag.AnswerContextLength | src/rag.py:42 | the pasted context holds at most 1200 characters per chunk plus one separator between neighbours |
| Seqs.Dedupe | src/rag.py:31-36 | the `seen`/`unique` loop returns `Distinct`: no repeats, exactly the input's elements, never longer |
| Seqs.DistinctSpec | src/rag.py:30-38 | stable de-duplication has no repeats and the same elements, is no longer than its input, and orders elements by first occurrence |
| Seqs.DistinctExample | src/rag.py:30-38 | `[x, y, x, z]` becomes `[x, y, z]` |
| Seqs.KeepPresent | src/entry_points.py:37-39 | keeps exactly the candidates that are present and drops the others; the result is never longer than the list |
| Seqs.KeepPresentOrder | src/entry_points.py:37-39 | the kept candidates have no repeats and keep the list's order |
| Strings.Strip | src/indexer.py:38 | `strip()` is empty iff the text is blank, and otherwise neither starts nor ends with whitespace |
| Strings.StripIsSlice | src/indexer.py:38 | `strip()` keeps a slice of the text and removes only whitespace around it |
| Strings.Take | src/indexer.py:25 | `s[:n]` is a prefix of at most `n` characters, and the whole string when it is shorter |
| Strings.Lower | src/file_filter.py:18 | same length, each character lower-cased on its own |
| Strings.NormSlashes | src/ts_map.py:29 | same length, no backslash left, each backslash turned into `/` and every other character kept |
| Strings.DecimalRoundTrip | src/rag.py:28 | the decimal rendering of a line number reads back as that number |
| FileFilter.ShouldIgnore | src/file_filter.py:12-23 | true iff the name equals an ignored folder or its lower-cased form ends with an ignored extension; false otherwise |
| FileFilter.ExtensionVerdictIgnoresCase | src/file_filter.py:18-21 | names that differ only in letter case get the same verdict, unless one is an ignored folder name |
| FileFilter.NoExtensionByLastChar | src/file_filter.py:19-23 | a name whose last character ends no ignored extension matches none of them |
| FileFilter.FolderMatchIsCaseSensitive | src/file_filter.py:14-15 | `node_modules` is ignored, `Node_Modules` is not |
| FileFilter.ExtensionExamples | src/file_filter.py:17-23 | `LOGO.PNG` and `yarn.lock` are ignored; `main.py` and `README.md` are kept |
| FileFilter.OneRuleForFilesAndFolders | src/file_filter.py:12-23 | a file named `dist` and a folder named `x.zip` are both ignored |
| TsMap.AppPageDisjunctSubsumed | src/ts_map.py:27-30 | a path is a route file iff, after slash normalisation, it starts with `app/` and ends with one of the four page suffixes; the extra `app/page.tsx` test adds nothing |
| TsMap.RouteFromAppPage | src/ts_map.py:32-41 | every route starts with `/` |
| TsMap.RouteOfPage | src/ts_map.py:32-41 | for a directory path without dots or backslashes, `app/<dir>/page.<ext>` is a route file serving `/<dir>`, so `app/foo/bar/page.tsx` serves `/foo/bar` |
| TsMap.RootRoute | src/ts_map.py:39-40 | `app/page.<ext>` serves `/` for all four extensions |
| TsMap.StripPageNamesNoSlash | src/ts_map.py:38 | a name without `/` has no page file name to delete |
| TsMap.ResolveRelativeImport | src/ts_map.py:43-49 | an import not starting with `.` resolves to `""`; resolved paths use forward slashes |
| TsMap.CandidatesOrder | src/ts_map.py:51-61 | eight probes, in order: `rel` plus each of `.ts`, `.tsx`, `.js`, `.jsx`, then `rel/index` plus each of them |
| TsMap.FirstPresent | src/ts_map.py:51-62 | the result is absent iff no candidate exists; otherwise it is the earliest existing candidate |
| TsMap.GuessTsFile | src/ts_map.py:51-62 | the two probing loops return the first existing candidate in order, or `""` iff none exists |
| TsMap.LocalImports | src/ts_map.py:90-97 | at most one resolved file per import, each both on disk and among the collected TS files |
| TsMap.ResolveLocal | src/ts_map.py:90-97 | the import loop of one page returns `LocalImports` |
| TsMap.ExistingRel | src/ts_map.py:79 | the set holds exactly the collected files with forward slashes: each of them, and nothing else |
| TsMap.BuildRouteComponentMap | src/ts_map.py:67-109 | the loop builds `RoutesOf`: one entry per route page, imports de-duplicated |
| TsMap.RoutesWellFormed | src/ts_map.py:81-107 | route keys are unique. Each entry is keyed by the route of its own page file. Its imports have no repeats and are all collected files on disk |
| TsMap.PutPageKeepsGood | src/ts_map.py:99-107 | entering a route page into a map with unique keys and good entries keeps both properties |
| TsMap.PageEntryGood | src/ts_map.py:99-107 | a page's entry is keyed by its route and lists its imports once each |
| TsMap.LaterPageWins | src/ts_map.py:107 | after a later page with the same route, the route maps to that page and its imports |
| TsMap.OtherFilesIgnored | src/ts_map.py:83-84 | files that are not route pages leave the map unchanged |
| TsMap.ImportLines | src/ts_map.py:123-124 | one bullet line per import, in order |
| TsMap.SectionShape | src/ts_map.py:118-127 | a section opens with the route heading and the route file. It lists each import on its own line, or the "(none detected)" line for none, and ends with a blank line |
| TsMap.RenderSection | src/ts_map.py:118-127 | the rendering of one route is `Section` |
| TsMap.AppendSection | src/ts_map.py:117-127 | one turn of the rendering loop appends the next route's section |
| TsMap.RenderSections | src/ts_map.py:117-127 | the rendering loop produces the sections of the given routes, in order |
| TsMap.RenderRoutesMd | src/ts_map.py:111-129 | the page is the header, then one section per route in sorted key order, joined by newlines; an empty map gets the header and the "No App Router" line |
| TsMap.EmptyRoutesMd | src/ts_map.py:112-115 | an empty map renders exactly as the header, a newline and the "No App Router ... detected." line |
| TsMap.SortedRoutesSpec | src/ts_map.py:117 | the sections follow the routes in ascending order, each route exactly once |
| TsMap.SectionsSnoc | src/ts_map.py:117-127 | one more route in the loop appends its section after the earlier ones |
| Diagram.Sanitize | src/diagram.py:169 | same length, safe characters kept, every other character replaced by `_` |
| Diagram.NodeId | src/diagram.py:168-170 | an identifier holds only `[A-Za-z0-9_]`. Its length is `min(|name|, 60)`, and every safe character of the name stays in place |
| Diagram.NodeIdIdempotent | src/diagram.py:168-170 | an identifier is its own identifier |
| Diagram.NodeIdCollides | src/diagram.py:168-170 | different names can share an identifier: `a-b` and `a.b` both give `a_b` |
| Diagram.PriorityScoreSpec | src/diagram.py:172-182 | score 0, 1, 2 or 3 iff the path starts with `app/`, `lib/`, `src/` or `components/` respectively, and 10 iff it starts with none of them |
| Diagram.NodeLeIsTotalOrder | src/diagram.py:185 | the key `(priority_score(n), n)` orders nodes totally |
| Diagram.NodeSort | src/diagram.py:185 | sorting by priority keeps the nodes, each once, in priority order |
| Diagram.NodeLeStrict | src/diagram.py:185 | two distinct nodes are never tied in the priority order |
| Diagram.PyTake | src/diagram.py:186 | Python's `s[:k]`, including a negative `k`: a prefix of the right length |
| Diagram.KeptNodesSpec | src/diagram.py:185-186 | the cap keeps `min(max_nodes, |nodes|)` distinct input nodes. Every kept node comes strictly before every dropped one in the priority order |
| Diagram.SmallGraphKeepsAll | src/diagram.py:185-186 | with the default cap of 40, a graph of at most 40 nodes keeps every node |
| Diagram.Label | src/diagram.py:197-199 | a label is at most 40 characters. Names up to 40 are unchanged. Longer ones become `...` plus their last 37 characters, 40 in total |
| Diagram.EdgesWithin | src/diagram.py:189 | an edge is kept iff both its ends are kept nodes; no repeats are introduced |
| Diagram.MermaidLinesLayout | src/diagram.py:193-206 | the block is the `mermaid` fence, `graph TD`, the node lines, the arrow lines and the closing fence, each at its stated position |
| Diagram.AppendTsNodeLines | src/diagram.py:195-200 | the node loop appends one line per node, in order, with the shortened label |
| Diagram.AppendTsArrows | src/diagram.py:202-204 | the edge loop appends one arrow per drawn edge, in order |
| Diagram.MermaidFromTsEdges | src/diagram.py:165-207 | the TypeScript diagram is the Mermaid block of the kept nodes, sorted by name, and the edges between them, sorted |
| Diagram.TsDiagramNodes | src/diagram.py:185-195 | the diagram shows exactly the kept nodes, each once, in name order |
| Diagram.TsDiagramEdges | src/diagram.py:189-204 | the diagram draws exactly the input edges with both ends kept, each once, in sorted order |
| Diagram.FirstMatch | src/diagram.py:223-227 | the target found is a node equal to `b` or starting with `b.`; none is found iff no node matches |
| Diagram.FindTarget | src/diagram.py:223-227 | the search loop stops at the first matching node, in iteration order |
| Diagram.AppendArrowFor | src/diagram.py:222-229 | one edge draws an arrow only when a target is found and both ends are nodes |
| Diagram.AppendPyNodeLines | src/diagram.py:219-220 | the node loop appends one line per node, names unshortened |
| Diagram.AppendPyArrows | src/diagram.py:222-229 | the edge loop appends the arrows of `DrawnEdges` in sorted edge order |
| Diagram.MermaidFromEdges | src/diagram.py:210-232 | the Python diagram is the Mermaid block of the sorted nodes and the arrows drawn for the sorted edges |
| Diagram.DrawnEdgesSound | src/diagram.py:222-229 | no more arrows than edges. Every arrow joins two nodes, comes from an input edge `(a, b)` and points at a node standing for `b` |
| Diagram.DrawnEdgesComplete | src/diagram.py:222-229 | an edge whose source is a node, and whose non-empty target names some node, gets an arrow to a node standing for that target |
| Diagram.RelModuleFromPath | src/diagram.py:19-23 | the module name has no separators. Each separator becomes `.`, and a trailing `.py` is dropped |
| Diagram.ModuleIgnoresSeparatorKind | src/diagram.py:19-23 | paths differing only in `/` versus `\` name the same module |
| Diagram.ParseTsImports | src/diagram.py:81-88 | exactly the captured paths starting with `./` or `../` are kept |
| Diagram.AddFileEdges | src/diagram.py:141-146 | one file's imports add an edge, and a node, for exactly the resolved targets that are non-empty and do not start with `..` |
| Diagram.BuildTsDependencyEdges | src/diagram.py:124-148 | the loop over the files builds `TsNodes` and `TsEdges`; unreadable files are skipped |
| Diagram.TsGraphClosed | src/diagram.py:124-148 | every edge starts at a readable file and ends at an internal target, and both ends are nodes; every readable file is a node |
| Ordering.StrSort | src/diagram.py:195 | `sorted()` on names gives an ascending permutation of its input |
| Ordering.PairSort | src/diagram.py:202 | `sorted()` on edges gives an ascending permutation of its input |
| Docs.Render | src/docs.py:28-36 | `render` produces `TreeLines`: a line per entry, each folder followed by its contents one level deeper, in insertion order |
| Docs.GenerateFilesOverview | src/docs.py:26-38 | the overview is the header, the rendered lines joined by newlines, and a final newline |
| Docs.TreeLinesCount | src/docs.py:28-36 | exactly one line per entry at every depth |
| Docs.EntryLinesCount | src/docs.py:31-35 | a folder gives one line plus one per entry below it; a file gives one line |
| Docs.TreeLinesIndented | src/docs.py:28-36 | no line of a tree rendered at depth d is indented less than `2*d` spaces |
| Docs.EntryLinesIndented | src/docs.py:31-35 | an entry's lines all carry at least its own indentation |
| Docs.FindNotebooksInTree | src/docs.py:259-268 | the recursive search returns `Notebooks`, depth-first in insertion order |
| Docs.NotebooksAreIpynbFiles | src/docs.py:259-268 | a path is listed iff it is the path of a file, not a folder, whose name ends in `.ipynb` |
| Docs.EntryNotebooksAreIpynbFiles | src/docs.py:262-267 | the same, for one entry of the tree |
| Docs.NotebookFolderNotListed | src/docs.py:264-267 | a folder named `x.ipynb` is searched, not listed |
| Docs.HasFolderInTree | src/docs.py:271-276 | true iff some given name is a root-level key whose value is a folder |
| Docs.ProjectTypeSpec | src/docs.py:141-155 | Python iff the root is set and a Python manifest exists. Node iff the root is set, no Python manifest exists and `package.json` exists. Unknown otherwise, including for an empty root |
| Docs.OnboardingGuide | src/docs.py:41-60 | the Next.js template is chosen iff the root is set and `app/layout.tsx` exists |
| Docs.GenericGuideFollowsType | src/docs.py:158-163 | outside the Next.js case, the Python, Node or generic template is chosen iff the project type is Python, Node or Unknown respectively |
| Docs.CountPresent | src/docs.py:307-308 | the count is at most the number of indicators |
| Docs.CountIndicators | src/docs.py:308 | the counting loop counts the indicators that occur in the content |
| Docs.IsNotebookMlRepo | src/docs.py:279-315 | the early-return chain computes `IsNotebookMl` |
| Docs.IsNotebookMlSpec | src/docs.py:287-315 | an empty tree is never ML. A root-level notebook folder or any `.ipynb` file makes it ML. Otherwise it is ML iff the root is set, `requirements.txt` is read and at least three indicators occur in its lower-cased text |
| Docs.ListOrFallbackLines | src/docs.py:530 | a non-empty list renders as one line per item, in order, when no item holds a newline |
| Docs.ExplainerCommandsSpec | src/docs.py:530 | no commands give `- (not found)`; otherwise one `- cmd` line per command |
| Docs.ExplainerPlaceholderAmbiguous | src/docs.py:530 | the placeholder reads the same as a single command spelled `(not found)` |
| Docs.PythonRunSectionNumbering | src/docs.py:165 | the Python template's run step has one line per command, and every line is numbered `4.` |
| Docs.NodeRunSectionSpec | src/docs.py:204 | the Node template's run step has one `- cmd` bullet per command, or the "Check `package.json` scripts" line for none |
| Docs.NextRunCommands | src/docs.py:71 | the command list of the Next.js template is never empty |
| Docs.NextQuickStartNumbering | src/docs.py:71-91 | the Quick Start is its steps joined by newlines, numbered `1.`, `2.` and so on in order. There is one step per command plus one more, so three steps when no command is given |
| EntryPoints.AppendExisting | src/entry_points.py:37-39 | the candidate loop appends exactly the existing candidates, in list order |
| EntryPoints.KeepPresentEmpty | src/entry_points.py:37-47 | nothing is kept iff no candidate exists |
| EntryPoints.GatedPairSpec | src/entry_points.py:35-45 | two gated candidate lists list exactly the existing candidates of the open gates, each once |
| EntryPoints.CollectRunCommands | src/entry_points.py:24-33 | the three `if name in scripts` appends produce `RunCommands` |
| EntryPoints.DetectNextjsEntrypoints | src/entry_points.py:15-55 | the detector returns the Next.js framework, the gated entry files, the run commands and the notes, as `NextDetection` |
| EntryPoints.RunCommandsSpec | src/entry_points.py:24-33 | there is one command per present script among `dev`, `build` and `start`, in that order. There are none when `package.json` is missing, unparseable or has no `scripts` |
| EntryPoints.CommandForSpec | src/entry_points.py:28-33 | a present script's command runs that script's own command text |
| EntryPoints.NextEntryFilesSpec | src/entry_points.py:35-45 | a file is listed iff it exists and is a candidate of a recognised router; no file is listed twice |
| EntryPoints.NextEntryFilesOrder | src/entry_points.py:35-45 | App Router files come before Pages Router files, each list in its fixed candidate order |
| EntryPoints.RouterGates | src/entry_points.py:17-45 | a router's files are listed only when that router's root files exist; with neither router, no file is listed |
| EntryPoints.NextConfigNoteSpec | src/entry_points.py:35-48 | the "no router files" note appears iff no entry file was found and `next.config.ts` exists. Each router note appears iff its router is recognised, and a recognised router excludes the config note |
| EntryPoints.DetectPythonEntrypoints | src/entry_points.py:57-75 | the detector returns `PythonDetection` |
| EntryPoints.PythonDetectionSpec | src/entry_points.py:57-75 | the entry files are exactly the existing candidates, once each, in candidate order. There is no command and exactly one note, the "none found" note iff no candidate exists |
| EntryPoints.DetectEntrypoints | src/entry_points.py:77-93 | the decision chain computes `Detect` |
| EntryPoints.DetectSpec | src/entry_points.py:77-93 | Next.js iff `package.json` sits beside a Next config or `app`, even when Python manifests exist. Otherwise Python iff a Python manifest exists. Otherwise Unknown, with no files, no commands and the single fallback note. Only Next.js has run commands, and only it reads `package.json` |

## Left out

- **Embedding and vector search** (`SentenceTransformer.encode`, `faiss.IndexFlatIP`, `index.search`): floating-point and external library code. The search result is the given sequence of ids, and the embedding step of `build_faiss_index` is not modelled.
- **Network calls**: `llm_answer`, `claude_generate_markdown` and the provider module.
- **Other UI and I/O**: the Streamlit UI, git cloning and the tree builder. They are outside the core.
- **Regular expressions**: `IMPORT_RE`, `TS_IMPORT_RE`, `PY_IMPORT_RE` and `re.sub`. Their captures are inputs, and `node_id`'s substitution is written out per character.
- **Filesystem and path calls**: `os.walk`, `os.path.exists`/`isfile`/`getsize`, `relpath`, `normpath`, `dirname`, `join`, and reading files. They are sets, trees, options and function parameters.
- **Line splitting**: `str.splitlines` is not modelled. A text is its list of lines, and a whitespace-only text is one whose every line is blank.
- **`collect_ts_files` (both copies), `collect_python_files`, `build_dependency_edges`, `parse_python_imports`, `resolve_ts_import`, `is_ts_repo`**: walks and regex or filesystem probes of the same shape as the modelled ones. `build_ts_dependency_edges` takes `resolve_ts_import` as a parameter.
- **Template prose**: the fixed text, `datetime.now()` timestamps, repository names and the routes section of the onboarding, ML, experiments, results, architecture and explainer documents. Only the template choice and the command lists are modelled.
- **Set iteration order**: the model does not fix it. `mermaid_from_edges` picks the first matching node in whatever order the sequence standing for the set gives.
- Strings.Lower: lower-cases ASCII letters only, not the full Unicode case mapping of `str.lower()`.
- **String ordering**: `sorted()` on strings orders by character code; the model uses the same order over Dafny `char`s.
- **`package.json` shapes**: a `package.json` that parses to something other than an object, or has script values that are not strings, is not modelled. Scripts are a name-to-text dict.
- Indexer.ChunkByLines: requires `CursorAdvances`. With `0 <= lines_per_chunk <= overlap` and more lines than one window, the source repeats the first window forever (`Indexer.CursorStalls`). `lines_per_chunk <= 0` is not modelled: there the source terminates for some overlaps, and it can emit a chunk whose end lies below its start (`lines[0:-1]` for a negative window).
- **Negative overlap**: for a negative overlap the model follows the code, which skips lines between windows. The no-gaps and last-window-ends-at-n properties are stated for a non-negative overlap only.
- TsMap.RouteOfPage: stated for directory paths without dots or backslashes. With dots, `str.replace` may also delete a `/page.ts` that occurs inside a directory name. `TsMap.RouteFromAppPage` itself models every path.
- Docs.HasFolderInTree: folder names are looked up with the first matching key of the tree's entry sequence; a Python dict has unique keys anyway.
