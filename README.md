# dir2txt, modelled in Dafny

dir2txt turns one or more directory roots into a single Markdown snapshot.
The snapshot has two parts:

- A "Project Structure" section holds an ASCII tree per root.
- A "File Contents" section holds one fenced block per text file.

This project models the engine behind that snapshot as a read-only
filesystem plus a byte buffer, and proves what each part promises:

- **Filter engine** (`filter.dfy`, `glob.dfy`): load-time pattern normalisation and the first-match-wins rule list (`dir/*`, `dir`, globs and `!` negation). Glob matching follows `path.Match`, one character at a time.
- **Classification** (`classify.dfy`): junk names, which are hidden everywhere, and asset names, which are listed in the tree but never read. It also holds the default configuration.
- **Content serializer** (`content.dfy`): the gates of `processFile` (stat, directory, size, read, binary sniff, encoding). When every gate passes it writes the fenced block.
- **Symlink-following walker** (`walk_model.dfy` holds the specification, `walker.dfy` the loops): the explicit stack and the `seen` set of canonical directories, with the callback in control of pruning.
- **Tree renderer** (`tree.dfy`): hiding, directories before files, folding of long file lists, the branch markers and recursion into linked directories.
- **Document** (`aggregate.dfy`): `processDirs`, which writes the two sections, and the content callback's decision for every entry.
- **Output name** (`naming.dfy`): the common ancestor of the input directories and the file name built from it.
- **Argument lists** (`args.dfy`): the list-valued flags, the sorting of leftover arguments, and the line filter of pattern files.

Supporting modules:

- `text.dfy`: the string functions of Go's `strings` and `path/filepath` packages, on a Unix build.
- `utf8.dfy`: UTF-8 validity as RFC 3629 section 4 defines it, and the encoder through which strings are written.
- `writer.dfy`: the output buffer.
- `filesystem.dfy`: the filesystem snapshot.
- `wrappers.dfy`: `Option`.

How the model is built:

- **Filesystem.** It is a value of maps, one per system call. A path that is not a key is a failure of that call.
- **Output.** The writer is a class whose byte sequence only ever grows.
- **Walk.** The walk is an imperative loop. It is proved against a trace predicate and against the function `RunWalk`, which fixes its calls and its result for a given filesystem and callback.
- **Tree and `processDirs`.** Each method is proved to write exactly the bytes of a specification function. Lemmas state the properties of those functions.

## Model

| member | source | states |
|---|---|---|
| Filter.NormalizeRule | dir2txt.go:290-296 | the kept pattern has no backslash and is a prefix of the backslash-replaced input; a `/*` ending is kept whole; otherwise exactly one trailing `/` is removed |
| Filter.Normalized | dir2txt.go:283-299 | never more patterns than given, and none contains a backslash |
| Filter.NormalizedConcat | dir2txt.go:285-298 | normalisation works pattern by pattern: normalising a concatenation concatenates the results, so order is kept |
| Filter.NormalizedSingle | dir2txt.go:286-289 | an empty pattern is dropped and any other is kept as its normalised form |
| Filter.NormalizeFilters | dir2txt.go:283-299 | the append loop returns exactly `Normalized` of its input |
| Filter.Firing | dir2txt.go:855-884 | flag k says whether rule k takes part (is non-empty) and matches the path |
| Filter.CheckFilterOutcome | dir2txt.go:848-895 | the answer is `(false, "")`, or it names the first firing rule; in that case "matched" holds exactly when that rule is not negated |
| Filter.EmptyPathNeverMatches | dir2txt.go:849-851 | an empty path gives `(false, "")` for any rules |
| Filter.FirstFiringRuleDecides | dir2txt.go:886-891 | when rule i fires and no earlier rule does, the answer is rule i with "matched" = not negated |
| Filter.NoFiringRuleKeeps | dir2txt.go:894 | when no rule fires the answer is `(false, "")` |
| Filter.LaterRulesIgnored | dir2txt.go:855-892 | once a rule fires, appending more rules changes nothing |
| Filter.ContentsRuleShape | dir2txt.go:866-870 | `P/*` with non-empty P matches exactly the paths starting with `P/`, never P itself |
| Filter.DirectoryRuleShape | dir2txt.go:872-875 | any other rule R, once one trailing `/` is trimmed, matches R and every path under `R/` |
| Filter.LiteralRuleShape | dir2txt.go:872-882 | a rule without glob characters matches exactly R, the paths under `R/`, and the paths whose last element is R |
| Filter.StarSuffixRuleShape | dir2txt.go:872-882 | `*T` with literal T matches the paths whose last element ends in T, plus the path spelled `*T` and what lies under it |
| Glob.LiteralMatchesItself | dir2txt.go:877-880 | a pattern without metacharacters matches exactly itself |
| Glob.StarThenLiteral | dir2txt.go:877-880 | `*` followed by a literal matches exactly the slash-free names ending in that literal |
| Glob.MatchChunk | dir2txt.go:877-880 | a star-free chunk matches a prefix of the text token by token and returns the rest |
| Classify.IsJunk | dir2txt.go:899-926 | `.`, `.env` and `.gitignore` are never junk; every other dot-name is; any other name is junk exactly when it is in the ignored files or ignored directories |
| Classify.AssetIgnoresCase | dir2txt.go:930-937 | whether a name is an asset does not depend on letter case |
| Classify.ExtOfLower | dir2txt.go:932 | lower-casing commutes with taking the extension |
| Classify.DefaultAssetHasDot | dir2txt.go:427-439 | every default asset name contains a dot |
| Classify.DefaultListsDisjoint | dir2txt.go:427-453 | no default extension is both an asset and forced text |
| Content.SniffWindow | dir2txt.go:941-944 | bytes past the first 512 never change the binary verdict |
| Content.BinaryHasNul | dir2txt.go:947-948 | content judged binary contains a NUL byte |
| Content.TextIsNotBinary | dir2txt.go:940-952 | the UTF-8 encoding of a string without NUL is never judged binary |
| Content.NulNearStartIsBinary | dir2txt.go:941-948 | a NUL character among the first 128 characters makes the encoding binary |
| Content.EncodingName | dir2txt.go:811-813 | the conversion notice is printed exactly when the encoding is not UTF-8 |
| Content.ConvertToUtf8 | dir2txt.go:956-973 | valid UTF-8 is returned unchanged as UTF-8; otherwise the GBK decoding, only if it is valid UTF-8; every result is valid UTF-8 |
| Content.LangShape | dir2txt.go:822-825 | the fence tag is non-empty and has no `.` or `/`; it is `text` or the lower-cased extension without its dot |
| Content.BodyShape | dir2txt.go:829-834 | the body is the content, followed by one newline exactly when the content is non-empty and does not end in one |
| Content.BodyIdempotent | dir2txt.go:832-834 | adding the closing newline twice is the same as once |
| Content.Unwrap | dir2txt.go:827-837 | what is unwrapped fits exactly between the header and the footer |
| Content.UnwrapBlock | dir2txt.go:827-837 | a written block unwraps back to the file's body |
| Content.FenceStartsLine | dir2txt.go:828-836 | the closing fence always starts a line |
| Content.BlockValid | dir2txt.go:827-837 | a block around valid UTF-8 is valid UTF-8 |
| Content.Serialize | dir2txt.go:770-840 | every block written is valid UTF-8 |
| Content.EmittedIff | dir2txt.go:772-808 | a block is written exactly when stat succeeds, the entry is not a directory, its size is at most the limit, it can be read, it passes the binary gate or has a forced-text extension, and its encoding converts |
| Content.Utf8Verbatim | dir2txt.go:793-829 | a small readable UTF-8 text file is written verbatim with its path and language tag |
| Content.ForcedTextKeepsNul | dir2txt.go:793-800 | a forced-text extension skips the binary gate, even for content that has NUL bytes |
| Content.SizeLimitInclusive | dir2txt.go:782-785 | a file is too large exactly when its size exceeds the limit, so a file of exactly the limit is kept |
| Content.WriteBlock | dir2txt.go:827-837 | the writes append exactly the block |
| Content.ProcessFile | dir2txt.go:770-840 | the buffer grows by the block `Serialize` emits, or by nothing |
| Output.Writer.WriteString | dir2txt.go:827-828 | appends the UTF-8 encoding of the string and keeps the buffer valid UTF-8 |
| Output.Writer.Write | dir2txt.go:829 | appends the bytes and keeps a valid buffer valid |
| FileSystem.FollowShape | dir2txt.go:66-78 | only a symbolic link is redirected, and only to a canonical path that stats as a directory; other entries keep their joined path and their own type |
| WalkModel.VisitOf | dir2txt.go:59-81 | the callback gets the entry, its logical path under the root and the followed physical path |
| WalkModel.TraceStep | dir2txt.go:50-98 | popping a directory and reporting all its entries extends the walk's trace |
| WalkModel.WalkStep | dir2txt.go:50-98 | one outer iteration keeps the walk invariant (every push comes from an entry the callback let through that leads to a directory; canonical paths of pushes are distinct and recorded in `seen`) and lowers the walk's measure: the set of canonical directories not yet seen shrinks, or it stays the same and the number of listable directories on the stack drops |
| WalkModel.WalkProgress | dir2txt.go:88-97 | listing a directory lowers the walk's measure: either the set of canonical directories not yet seen shrinks, or it is unchanged (no push resolves) and the number of listable directories on the stack drops by the one popped |
| WalkModel.PushFresh | dir2txt.go:88-96 | pushes of fresh canonical paths keep the pushes distinct and recorded |
| WalkModel.FailUnlisted | dir2txt.go:54-57 | a directory that cannot be listed ends the walk with an error, after the calls for everything before it |
| WalkModel.FailCallback | dir2txt.go:81-86 | a failing callback ends the walk after a prefix of the current directory's entries |
| WalkModel.WalkDone | dir2txt.go:50-101 | an empty stack ends the walk successfully, with every popped directory listed and all its entries reported in order |
| WalkModel.OutcomeCalls | dir2txt.go:50-101 | a successful walk made no failing call, and a root that cannot be listed fails the walk before any call |
| WalkModel.ScannedCalls | dir2txt.go:59-86 | a scan's calls are the directory's first entries in order; it stopped early exactly when its last call failed; `seen` only grows, within the canonical paths |
| WalkModel.ScanEntry | dir2txt.go:59-97 | one entry adds exactly one call; it adds at most one push and never drops earlier pushes or seen paths |
| WalkModel.ScanEntries | dir2txt.go:59-97 | a scan makes at most one call per entry, one for every entry unless a call failed, and `seen` only grows |
| WalkModel.FailedScanStays | dir2txt.go:81-86 | once a call has failed, later entries change nothing: the scan stops there |
| WalkModel.ScanSeenGrows | dir2txt.go:88-96 | the scan's `seen` is the old `seen` plus exactly the canonical paths of its pushes |
| WalkModel.ScanFresh | dir2txt.go:88-96 | the canonical path of each push was unseen before the scan and is recorded after it, no two pushes share one, and `seen` stays within the canonical paths |
| WalkModel.ScanComplete | dir2txt.go:81-97 | every entry that was called, let through, and leads to a directory is pushed when it cannot be resolved, and otherwise its canonical path ends up in `seen` |
| WalkModel.RunWalk | dir2txt.go:47-101 | the walk from a stack and a `seen` set keeps the calls made before it as a prefix of its calls |
| WalkModel.WalkEntersSubdirectory | dir2txt.go:47-101 | for `/r` holding directory `d` holding file `f`, a callback that lets everything through is called on `d` and then on `d/f`, and the walk succeeds |
| WalkModel.NestedTopScan | dir2txt.go:59-97 | scanning `/r` calls the callback on `d` and pushes it |
| WalkModel.NestedSubScan | dir2txt.go:59-97 | scanning `/r/d` calls the callback on `f` under the logical path `d/f` and pushes nothing |
| WalkModel.NestedSubWalk | dir2txt.go:50-101 | with `d` on the stack the walk lists it and ends successfully |
| Walker.ScanStep | dir2txt.go:59-97 | one turn of the inner loop makes the entry's call and pushes it exactly as `ScanEntry` says, keeping every push's provenance and freshness |
| Walker.ScanDir | dir2txt.go:59-98 | the inner loop reports the entries in order, one call each, and stops early exactly at the first call that fails; it pushes each entry that leads to a directory, was let through, and is unseen or unresolvable; its calls, pushes and new `seen` are exactly the scan `ScanEntries` describes |
| Walker.WalkOnce | dir2txt.go:50-98 | one pop, list and scan either ends the walk with its outcome, or keeps the invariant with less left to see; either way the walk `RunWalk` describes gives the same result from the new state as from the old |
| Walker.Walk | dir2txt.go:41-102 | the walk's outcome: on success no call failed, every popped directory was listed and its entries reported in order; on failure, where it stopped and why, and a root that cannot be listed fails before any call; every push was let through by the callback, and no two share a canonical directory; and the result is exactly `RunWalk` from the root, so which directories are entered is fixed by the filesystem and the callback |
| Tree.VisibleEntries | dir2txt.go:983-1011 | never more entries than listed |
| Tree.VisibleEntriesExact | dir2txt.go:983-1011 | an entry is kept exactly when it is listed and not the output file, not junk, and not hard-filtered below the root |
| Tree.DirsOf | dir2txt.go:1016-1022 | every entry is a directory |
| Tree.FilesOf | dir2txt.go:1016-1022 | no entry is a directory |
| Tree.SplitIsPartition | dir2txt.go:1014-1022 | directories plus files is a permutation of the visible entries |
| Tree.FoldShape | dir2txt.go:1024-1034 | with folding on and more than 24 files: the first 8 files, a placeholder counting the rest, and the last 8, with 8 + count + 8 = the number of files; otherwise all files in order |
| Tree.FoldKeepsFiles | dir2txt.go:1024-1034 | every file shown after folding is one of the files |
| Tree.LayoutShape | dir2txt.go:1036-1038 | the listing starts with every visible directory in order, and every entry it shows is listed and visible |
| Tree.DecimalRoundTrip | dir2txt.go:1031 | the printed hidden count reads back as the count |
| Tree.SubtreeProgress | dir2txt.go:1070-1083 | descending either records a new canonical directory or moves to a directory that cannot be listed, so the recursion ends |
| Tree.RenderDir | dir2txt.go:976-1086 | rendering fails exactly when the directory cannot be listed, and then writes nothing; `seen` only grows, within the canonical paths |
| Tree.RenderItems | dir2txt.go:1040-1084 | `seen` only grows, within the canonical paths |
| Tree.SubRender | dir2txt.go:1058-1083 | `seen` only grows, within the canonical paths |
| Tree.FilterVisible | dir2txt.go:983-1011 | the filtering loop returns exactly the visible entries in order |
| Tree.SplitEntries | dir2txt.go:1014-1022 | the splitting loop returns exactly the directories and the files, in order |
| Tree.WriteSubtree | dir2txt.go:1058-1083 | the recursion below one item writes exactly its rendered text and returns its `seen` |
| Tree.WriteItem | dir2txt.go:1040-1083 | one turn of the loop writes exactly the item's line and then what is drawn below it, and returns the subtree's `seen` |
| Tree.WriteTree | dir2txt.go:976-1086 | writes exactly the rendered tree of the directory, and reports its success and the new `seen` |
| Aggregate.ToSignal | dir2txt.go:580-636 | the callback never fails, and it asks to skip exactly when it prunes |
| Aggregate.JudgeIff | dir2txt.go:580-636 | an entry is pruned exactly when it is a directory and excluded (the output file, junk, hard-filtered below the root, or soft-filtered); it is serialized exactly when it is not excluded, not a directory and not an asset |
| Aggregate.WalkFailsOnlyUnlisted | dir2txt.go:580-637 | the content walk stops early only at a directory it cannot list |
| Aggregate.NothingExcludedIsEntered | dir2txt.go:580-611 | the content walk never descends into an excluded entry, links included |
| Aggregate.JunkLinkEnteredAsWritten | dir2txt.go:591-596 | with the callback as written, a symbolic link named `node_modules` to a directory is hidden from the tree but still entered, and a file under it is serialized |
| Aggregate.JunkLinkHidden | dir2txt.go:995-1000 | `node_modules` is junk under the defaults, so the tree leaves the link out |
| Aggregate.JunkLinkFollowed | dir2txt.go:591-596 | with the callback as written the link is not pruned, because its own type is not a directory, and the walker pushes its target |
| Aggregate.JunkFileProcessed | dir2txt.go:627-635 | the callback as written hands the file `a.js` below the link to processFile |
| Aggregate.PlainNotJunk | dir2txt.go:899-926 | `a.js` is not junk under the defaults |
| Aggregate.PlainNotAsset | dir2txt.go:930-937 | `a.js` is not an asset under the defaults |
| Aggregate.PlainExt | dir2txt.go:932 | the lower-cased extension of `a.js` is `.js` |
| Aggregate.JunkLinkPruned | dir2txt.go:591-596 | the corrected callback prunes that link |
| Aggregate.ContentValid | dir2txt.go:580-636 | the bytes of a content walk are valid UTF-8 |
| Aggregate.TreeSectionValid | dir2txt.go:555-567 | one root's structure lines are valid UTF-8 |
| Aggregate.StructureValid | dir2txt.go:555-567 | the structure section is valid UTF-8 |
| Aggregate.LastError | dir2txt.go:572-642 | no error is returned exactly when every root had an absolute path and its walk succeeded; the variable `firstErr` is overwritten by every later failure, so the error returned is the last one |
| Aggregate.LastErrorStep | dir2txt.go:573-641 | a later failure replaces the recorded error, and a success keeps it |
| Aggregate.Preamble | dir2txt.go:553-554 | the opening lines are valid UTF-8 |
| Aggregate.Interlude | dir2txt.go:568-571 | the closing fence, rule and contents heading are valid UTF-8 |
| Aggregate.DocumentValid | dir2txt.go:547-643 | the whole document is valid UTF-8 |
| Aggregate.AllContentValid | dir2txt.go:572-642 | the contents section is valid UTF-8 |
| Aggregate.WriteTreeSection | dir2txt.go:556-566 | one root writes its name and tree, an error line if listing failed, then a blank line; without an absolute path it writes the error pair only |
| Aggregate.WriteAbsError | dir2txt.go:557-561 | writes exactly the directory line and the error line of a directory without an absolute path |
| Aggregate.WriteRootTree | dir2txt.go:562-566 | writes exactly the base-name line, the tree, the error line if listing failed, and the blank line |
| Aggregate.WriteTreeTail | dir2txt.go:563-566 | writes the error line exactly when listing failed, then the blank line |
| Aggregate.WalkContents | dir2txt.go:580-636 | the content walk is the walk `RunWalk` gives from the root with the corrected content callback, and it writes exactly the blocks of the entries that callback hands to processFile, in visit order |
| Aggregate.WriteStructure | dir2txt.go:555-567 | the first loop writes exactly the structure section |
| Aggregate.WriteDirContents | dir2txt.go:574-640 | one root is walked, as `RunWalk` gives it with the corrected content callback, when it has an absolute path, and writes exactly that walk's blocks; otherwise it writes nothing |
| Aggregate.WriteContents | dir2txt.go:572-642 | the second loop writes exactly the contents of the walks of all roots, each the `RunWalk` of its absolute path with the corrected content callback, and returns the error of the last failing root |
| Aggregate.WriteStructurePart | dir2txt.go:553-567 | writes exactly the opening lines and the structure section |
| Aggregate.WriteContentsPart | dir2txt.go:568-642 | writes exactly the closing lines of the structure section and the contents of the walks of all roots (each a `RunWalk` with the corrected content callback), and returns the last error |
| Aggregate.WriteDocument | dir2txt.go:553-642 | writes exactly the document whose contents come from the walks of all roots, each the `RunWalk` of its absolute path with the corrected content callback, and returns the last error |
| Aggregate.WritePreamble | dir2txt.go:553-554 | writes exactly the opening lines |
| Aggregate.WriteInterlude | dir2txt.go:568-571 | writes exactly the text between the two sections |
| Aggregate.ProcessDirs | dir2txt.go:547-643 | an output path without an absolute form returns its error before writing anything; otherwise it writes exactly the document whose contents come from the walks of all roots, each the `RunWalk` of its absolute path with the corrected content callback, and returns the last error |
| Naming.Lcp | dir2txt.go:384-399 | the result is a prefix of both paths |
| Naming.LcpGreatest | dir2txt.go:384-399 | every common prefix of two paths is a prefix of their longest common prefix |
| Naming.AsWrittenIff | dir2txt.go:401-407 | the prefix test as written accepts exactly the segment prefixes whose next segment does not start with `..` |
| Naming.DotDotNameRejected | dir2txt.go:401-407 | `/a/..x` lies under `/a`, but the test as written says it does not |
| Naming.CommonPrefix | dir2txt.go:384-399 | the result is a prefix of every path |
| Naming.CommonPrefixGreatest | dir2txt.go:384-399 | every prefix shared by all paths is a prefix of the result |
| Naming.CommonAncestor | dir2txt.go:384-387 | no ancestor exactly when there are no paths |
| Naming.FindCommonAncestor | dir2txt.go:384-399 | the climbing loop returns the longest common prefix of the paths |
| Naming.CommonAncestorAsWritten | dir2txt.go:384-407 | the search with the prefix test as written finds an ancestor only for a non-empty list |
| Naming.DotDotSiblingAsWritten | dir2txt.go:369-407 | for `/a/b` and `/a/..x` the search as written climbs to the root, although the common ancestor is `/a` and the document should be named `a_context.md` |
| Naming.OutputFileName | dir2txt.go:369-382 | the name, built over the corrected common ancestor, always ends in `_context.md` |
| Naming.SharedParentNamesDocument | dir2txt.go:373-381 | with the corrected common ancestor, several roots directly inside one non-root directory name the document after it |
| Naming.DisjointRootsMerged | dir2txt.go:373-381 | roots with different first segments give `merged_project_context.md` |
| Args.RunLength | dir2txt.go:116 | the leading run of non-space characters is maximal |
| Args.Fields | dir2txt.go:116 | every field is non-empty and has no white space |
| Args.FieldsOfJoin | dir2txt.go:112-118 | splitting fields joined by spaces gives the fields back |
| Args.MultiValue.Set | dir2txt.go:112-118 | appends the white-space fields of the value, and keeps every stored value one field |
| Args.RawStringList.Set | dir2txt.go:129-135 | appends the value whole unless it is empty, so no stored value is empty |
| Args.DirArguments | dir2txt.go:273-279 | every directory argument is non-empty, not a pattern, and was given |
| Args.PatternArguments | dir2txt.go:273-279 | every soft filter taken from the leftovers is one field |
| Args.EveryPlainArgumentIsDir | dir2txt.go:273-279 | every non-empty leftover that is not a pattern becomes a directory |
| Args.SortLeftover | dir2txt.go:273-279 | the loop appends exactly the directory arguments and the pattern fields, in order |
| Args.PatternLines | dir2txt.go:310-319 | every kept pattern is non-empty, trimmed and not a comment, and there are no more than lines |
| Args.LoadPatterns | dir2txt.go:308-319 | the scanner loop returns exactly the trimmed pattern lines in order |
| Args.PatternLineKept | dir2txt.go:310-319 | every line that is non-empty once trimmed and not a comment is kept, trimmed |
| Args.PatternLinesIdempotent | dir2txt.go:310-319 | loading the kept patterns again gives the same patterns |

## Left out

- The installer and uninstaller (dir2txt.go:645-767) copy files, edit environment variables and start PowerShell. This is I/O only.
- The `main` function and flag parsing in `parseCommandLine` (dir2txt.go:148-272, 457-545) are not modelled. Only the sorting of leftover arguments is.
- The `String` methods of the two list flags (dir2txt.go:108-110, 125-127) only print a flag's value.
- `determineOutputPath` (dir2txt.go:327-367) asks the working directory and stats the output path. `processDirs` receives its result as `finalOutPath`.
- `filepath.Abs` is the parameter `abs`. It carries a single error text, `absError`, for every path it cannot resolve.
- Each system call (`os.ReadDir`, `filepath.EvalSymlinks`, `os.Stat`, `os.ReadFile`, `os.Readlink`) is a map of a read-only snapshot.
  - A path that is not a key is a failure.
  - Every listing failure reports the same text, `errorText`.
  - Nothing changes the filesystem while the program runs.
- The GBK/GB18030 decoder of `golang.org/x/text` is a parameter `gbk`. Its result is used only when it is valid UTF-8, as in the source.
- The callback calls `processFile` during the walk. The model runs the walk first, then serializes the visits in order. This gives the same bytes because the callback never fails, the walk never reads the buffer, and the filesystem does not change.
- Progress and warning lines on standard output and standard error are not modelled. Neither are `bufio` flushing and write errors.
- Paths are those of a Unix build:
  - `filepath.ToSlash` is the identity;
  - `filepath.Join` is applied to cleaned directories and single names;
  - the logical path `filepath.Rel` computes in `writeTree` is built by joining names below the root.
- White space, as `strings.Fields` and `strings.TrimSpace` see it, is limited to the Latin-1 range.
- Opening the pattern file and `bufio.Scanner`'s splitting into lines are I/O. `Args.LoadPatterns` starts from the lines.
- Sizes are unbounded integers. The source's `int64` never overflows for real file sizes.
- `writeTree` ignores the errors of its recursive calls. The model likewise fails only at the top directory.
- Naming.OutputFileName: the lemmas cover the one-root name, roots under a shared non-root parent, and roots without a shared first segment. Roots whose only common ancestor is the root fall under the general definition.
- Naming.CommonAncestorAsWritten: only its non-emptiness is stated. It exists to exhibit the finding below, and `Naming.DotDotSiblingAsWritten` pins its value on the counterexample.
- WalkContents: walks with the corrected content callback `Decide`, whose directory test is `LeadsToDir`, not with the source's test of the entry's own type (`DecideAsWritten`). For an excluded symbolic link to a directory, the model prunes the link where the source descends into it and serializes the files below. `JunkLinkEnteredAsWritten` states the source's behaviour. The first row of "## Findings" describes this.
- WriteDirContents: its blocks come from the walk with the corrected content callback, as for WalkContents above.
- WriteContents: its blocks come from the walks with the corrected content callback, as for WalkContents above.
- WriteContentsPart: its blocks come from the walks with the corrected content callback, as for WalkContents above.
- WriteDocument: its contents section comes from the walks with the corrected content callback, as for WalkContents above.
- ProcessDirs: its contents section comes from the walks with the corrected content callback, as for WalkContents above. On the filesystem `LinkFS` it writes no block for `/t/a.js`, while the source writes one.
- OutputFileName: it is built over the corrected `CommonAncestor`, not over the search as written (`CommonAncestorAsWritten`). For roots `/a/b` and `/a/..x` the source names the document `merged_project_context.md` and the model names it `a_context.md`. `DotDotSiblingAsWritten` states the source's behaviour, and the second row of "## Findings" describes it.
- SharedParentNamesDocument: it holds for the corrected name. In the source as written, a root under the parent whose name starts with `..` sends the search up to `/`, and the document gets the merged name.
- ToLower: lowers ASCII letters only. Go's `strings.ToLower` lowers every Unicode letter; for example U+0130 becomes `i` and `É` becomes `é`. So `IsAsset` and `Lang` below differ from the source for extensions with non-ASCII capital letters.
- IsAsset: an extension such as `.İco` is not recognised as `.ico`, so such a file is read and serialized where the source skips it as an asset (see ToLower).
- Lang: the fence tag keeps non-ASCII capitals, so `x.ÉTÉ` is tagged `ÉTÉ` where the source writes `été` (see ToLower).
- GlobMatch: names and patterns are sequences of characters. Go's `path.Match` lets a star skip single bytes, after which `?` can match a stray continuation byte, so `path.Match("*??", "€")` is true in Go and `GlobMatch("*??", "€")` is false in the model. Names that are not valid UTF-8 are not represented.

## Findings

| source | as written | input that shows it | evidently intended | confidence | as-written member | corrected member |
|---|---|---|---|---|---|---|
| dir2txt.go:584-625 | the content callback decides "directory" by `d.IsDir()`, which is false for a symbolic link; an excluded link to a directory (junk name, hard or soft filter) is therefore not pruned, and the walker follows it (dir2txt.go:88-96) | root `/r` holding a link `node_modules` to `/t`, which holds `a.js`: the tree hides `node_modules`, but `/t/a.js` is serialized under "File Contents" | an excluded entry that leads to a directory is pruned like one, as the tree does | likely; not executed | Aggregate.JunkLinkEnteredAsWritten | Aggregate.NothingExcludedIsEntered |
| dir2txt.go:401-407 | `hasPathPrefix` rejects any relative path that starts with `..`, so a child directory whose name starts with `..` counts as lying outside | roots `/a/b` and `/a/..x`: `findCommonAncestor` climbs to `/`, and the document is named `merged_project_context.md` | the common ancestor `/a`, and the name `a_context.md` | certain for the shown input; not executed | Naming.DotDotSiblingAsWritten | Naming.FindCommonAncestor |
