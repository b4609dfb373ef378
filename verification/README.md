# Verification of Brain3's core logic

Brain3 exposes a Markdown vault, and plugin containers beside it, to language-model clients over
MCP. This project models, in Dafny, the parts of it whose correctness is not visible from one
function body, and proves what they promise:

- **The unified-diff patch engine** (`Patch*.dfy`, `Lines.dfy`, `ReadTool.dfy`): a diff parser, an
  in-place splice loop with a running offset, hash-guarded writes, and the numbered windows that
  clients build diffs from.
- **The frontmatter index** (`FrontmatterIndex.dfy`, `IndexSystem.dfy`): a debounced cache shared by
  a watchdog, timers and searches. The object has one method per lock region; the transition
  system uses the same state functions and interleaves them with file changes and unlocked reads.
- **The MCP router and plugin client** (`McpRouter.dfy`, `PluginClient.dfy`, `ResourceUris.dfy`,
  `Json.dfy`, `ConfigNames.dfy`): three namespaces merged by prefixing and dispatched by stripping.
- **Container startup and garbage collection** (`ContainerPort.dfy`, `ContainerStartup.dfy`): a
  protocol against a runtime that may answer anything. Every call is recorded in a ghost trace, and
  the results are statements about all traces.
- **The log tail, the re-run command and the directory listing** (`RuntimeLogs.dfy`, `Shell.dfy`,
  `Listing.dfy`).

`Basics.dfy` and `Utf8.dfy` hold shared helpers. `dafny verify dfyconfig.toml` checks everything.

## What the code does that one might not expect

Each of these is proved with the exact condition under which it happens.

- A hunk with an empty old range is inserted before line `old_start`, one line earlier than the diff
  format says (`PatchFacts.PureInsertionIsEarly`; `patch.py:151`).
- A deleted line that starts with `-- `, or an added one that starts with `++ `, is refused as a file
  header, so such edits cannot be written as a diff (`PatchPrint.ParseOfPrint`).
- No file header can name a path with a tab, a line break or a space at its end, and one without `a/`
  or `b/` no path that itself starts with these (`PatchPrint.ParseOfPrintWithHeaders`,
  `PatchPrint.UnprefixedPath`).
- Appending after a last line without newline glues the new text to it (`PatchText.AppendGlues`,
  exactly when: `PatchText.ResplitsIff`).
- A carriage return in inserted text makes the returned hash stale, because the next read translates
  it (`PatchHash.CrMakesHashStale`, exactly when: `PatchHash.ReturnedHashIsCurrent`).
- A diff that respells a deleted line restores, when undone, the respelled line
  (`PatchUndo.UndoRestores`).
- A numbered window whose lines end in form feeds or other exotic separators cannot be patched from
  its numbered text (`ReadTool.WindowPatch`).
- Two flush bodies that overlap on one path can leave its entry stale for good, from every state where
  one of them is at work on it (`IndexSystem.OverlapCanAlwaysHarm`). The agreement results exclude
  exactly that, path by path, and a stop.
- A log read that ends inside a character loses it (`Utf8.CutIff`).
- Container names such as `a` and `a_` are both accepted, and then the tools of `a_` are looked up in
  `a` when `a` comes first (`ConfigNames.ValidationAllowsAClash`, `McpRouter.PrefixFreeIff`).
- A plugin tool with an empty name is listed and can never be called (`McpRouter.PluginToolDispatch`).
- One entry whose directory test raises, or one directory whose reading fails other than by
  permission, fails the whole listing (`Listing.RaisesIff`).

## Model

| member | source | states |
|---|---|---|
| `PatchApply.SpliceIsSimultaneous` | brain3-mcp-vault-tools/src/brain3_mcp_vault_tools/tools/patch.py:143-183 | For every ascending, non-overlapping hunk list and every file, the sequential splice loop accepts exactly when each old side matches the ORIGINAL lines at `old_start` - 1 (up to the normaliser), and its result is then the one-pass simultaneous replacement |
| `PatchApply.SpliceRefines` | brain3-mcp-vault-tools/src/brain3_mcp_vault_tools/tools/patch.py:147-181 | The loop in mid-run: with any finished prefix and running `offset`, the remaining turns equal the one-pass replacement of what is left, or fail exactly when some remaining old side does not match the original |
| `PatchApply.SpliceOneStep` | brain3-mcp-vault-tools/src/brain3_mcp_vault_tools/tools/patch.py:151-181 | One turn compares the claimed ORIGINAL lines although it indexes the edited list, and moves the finished prefix past the hunk, with the new offset |
| `PatchApply.AllMatchEach` | brain3-mcp-vault-tools/src/brain3_mcp_vault_tools/tools/patch.py:164-165 | The recursive acceptance condition means: every single hunk's old side matches the original lines it claims |
| `PatchApply.MatchingFits` | brain3-mcp-vault-tools/src/brain3_mcp_vault_tools/tools/patch.py:151-165 | Accepted hunks claim lines that all lie inside the file |
| `PatchApply.OneHunk` | brain3-mcp-vault-tools/src/brain3_mcp_vault_tools/tools/patch.py:147-181 | A single hunk inside the file is accepted exactly when its lines match, and replaces exactly lines a..b |
| `PatchApply.ApplyHunks` | brain3-mcp-vault-tools/src/brain3_mcp_vault_tools/tools/patch.py:143-183 | The imperative loop over hunks computes the splice specification on the split content and joins it, or reports a context mismatch |
| `PatchApply.SpliceHunk` | brain3-mcp-vault-tools/src/brain3_mcp_vault_tools/tools/patch.py:148-181 | One turn: context check, then the slice assignment, for slices clamped as Python clamps them |
| `PatchApply.BuildSegment` | brain3-mcp-vault-tools/src/brain3_mcp_vault_tools/tools/patch.py:167-178 | The `file_pos` loop yields the file's own context lines and the inserted texts, in hunk order |
| `PatchFacts.ClampNeverFires` | brain3-mcp-vault-tools/src/brain3_mcp_vault_tools/tools/patch.py:151 | For accepted ascending hunks, the start computed from `old_start` - 1 and the running offset is never negative, so `max(0, ...)` changes nothing unless a first hunk has `old_start` 0 |
| `PatchFacts.ReplacedLength` | brain3-mcp-vault-tools/src/brain3_mcp_vault_tools/tools/patch.py:181 | The result is longer than the file by the sum of the hunks' deltas |
| `PatchFacts.ReplaceAllProvenance` | brain3-mcp-vault-tools/src/brain3_mcp_vault_tools/tools/patch.py:167-180 | Every result line is an original line or an inserted text; the kept originals are exactly those no hunk deletes, in order; the inserted texts are all the hunks' inserts, in order |
| `PatchFacts.SourcesKeep` | brain3-mcp-vault-tools/src/brain3_mcp_vault_tools/tools/patch.py:167-180 | An original line survives if and only if no hunk deletes it |
| `PatchFacts.PureInsertionIsEarly` | brain3-mcp-vault-tools/src/brain3_mcp_vault_tools/tools/patch.py:151-152 | A hunk with an empty old side is placed before line `old_start`, and this agrees with the diff format's "after line `old_start`" if and only if every inserted text equals that line |
| `PatchFacts.ShiftedInsertion` | brain3-mcp-vault-tools/src/brain3_mcp_vault_tools/tools/patch.py:151-152 | Inserting before or after a line gives the same file exactly when only copies of that line are inserted |
| `PatchUndo.Undo` | brain3-mcp-vault-tools/src/brain3_mcp_vault_tools/tools/patch.py:147-181 | The reversed hunks, placed at the running start index plus one, are accepted on the output of any accepted patch and give the original lines with each deleted one respelled as its hunk spells it |
| `PatchUndo.UndoRestores` | brain3-mcp-vault-tools/src/brain3_mcp_vault_tools/tools/patch.py:147-181 | Undo restores the line count, every line up to the normaliser, every undeleted line exactly, and the whole file exactly if and only if each deletion was spelled exactly as in the file |
| `PatchUndoText.UndoThroughText` | brain3-mcp-vault-tools/src/brain3_mcp_vault_tools/tools/patch.py:52-183 | End to end: printing the reverse of any accepted patch of ordinary lines and handing it to the tool gives the original text with deletions respelled (the very text where they were spelled exactly), or the multi-file error when a printed line looks like a file header |
| `PatchUndoText.ReverseIsCanonical` | brain3-mcp-vault-tools/src/brain3_mcp_vault_tools/tools/patch.py:52-140 | The reversed hunks are hunks as diff tools write them, with true counts |
| `PatchUndo.ReverseAll` | brain3-mcp-vault-tools/src/brain3_mcp_vault_tools/tools/patch.py:147-181 | The induction behind undo: the reversed hunks are again ascending, fit, match the result, and replace what the patch made of each part by the respelled original |
| `PatchUndo.ReverseOne` | brain3-mcp-vault-tools/src/brain3_mcp_vault_tools/tools/patch.py:167-178 | Swapping `+` and `-` in one hunk: its old side matches what the hunk left, and filling it gives back the respelled claim |
| `PatchUndo.RespellAllFacts` | brain3-mcp-vault-tools/src/brain3_mcp_vault_tools/tools/patch.py:164-165 | Respelling keeps length and normal form, and is the identity exactly when deletions are spelled exactly |
| `PatchText.PatchedTextResplits` | brain3-mcp-vault-tools/src/brain3_mcp_vault_tools/tools/patch.py:144-183 | If all file lines and inserts are whole, re-splitting the patched text gives exactly the spliced line list, whose length has grown by the total delta |
| `PatchText.ResplitsIff` | brain3-mcp-vault-tools/src/brain3_mcp_vault_tools/tools/patch.py:144-183 | For all lines and inserted lines the patched text splits into exactly the spliced lines if and only if, in the order the hunks give them, each line is ended and set apart from the next; this is read off the file's lines and the hunks |
| `PatchText.ApartIff` | brain3-mcp-vault-tools/src/brain3_mcp_vault_tools/tools/patch.py:144-183 | Of texts without a carriage return, exactly the unended one runs into the next |
| `PatchText.AppendGlues` | brain3-mcp-vault-tools/src/brain3_mcp_vault_tools/tools/patch.py:169-183 | Concrete input: after appending to a last line without newline the neighbours do not stay apart, and the two lines become one |
| `PatchText.CheckedDelta` | brain3-mcp-vault-tools/src/brain3_mcp_vault_tools/tools/patch.py:111-125 | When the counts were checked, the growth equals the sum of (new_count - old_count) of the headers |
| `PatchText.ParsedDelta` | brain3-mcp-vault-tools/src/brain3_mcp_vault_tools/tools/patch.py:111-125 | Every successful parse yields hunks whose growth is what their headers announce |
| `PatchText.CrComesFromInserts` | brain3-mcp-vault-tools/src/brain3_mcp_vault_tools/tools/patch.py:167-183 | Into a file without carriage returns the patch brings one if and only if an inserted text holds one |
| `PatchParse.ParseUnifiedDiff` | brain3-mcp-vault-tools/src/brain3_mcp_vault_tools/tools/patch.py:52-140 | The index-driven scanner returns, for every path and text, the specified hunk list or the specified error, with the errors in the source's order; what is specified is fixed by the rows below |
| `PatchParse.ScanHunk` | brain3-mcp-vault-tools/src/brain3_mcp_vault_tools/tools/patch.py:80-135 | The outer loop's body: the parse of the lines from `index` is this hunk and the lines from `next`, or this failure |
| `PatchParse.ScanBody` | brain3-mcp-vault-tools/src/brain3_mcp_vault_tools/tools/patch.py:97-109 | The inner loop: collects body lines up to the next hunk header, with the header-lookalike and bad-prefix errors |
| `PatchParse.ParseBody` | brain3-mcp-vault-tools/src/brain3_mcp_vault_tools/tools/patch.py:97-109 | Body and remaining lines make up the input, and the remaining lines are its suffix, empty or starting at a hunk header |
| `PatchParse.ParsedHunkShape` | brain3-mcp-vault-tools/src/brain3_mcp_vault_tools/tools/patch.py:80-135 | A parsed hunk took its header line and its body lines up to the next header; its header, numbers and counts are those of that line, and the counts are true |
| `PatchPrint.ParseOfPrint` | brain3-mcp-vault-tools/src/brain3_mcp_vault_tools/tools/patch.py:52-140 | Printing any well-formed hunk list and parsing it gives the list back if no deleted text starts with "-- " and no added text with "++ ", and the multi-file error otherwise |
| `PatchPrint.ParseOfPrintWithHeaders` | brain3-mcp-vault-tools/src/brain3_mcp_vault_tools/tools/patch.py:58-76 | With `--- a/path` and `+++ b/path` before it, a well-formed patch parses as it does without them if the path has no tab, no line break and no space at its end; for every other path the patch is refused |
| `PatchHeaders.StampedHeaders` | brain3-mcp-vault-tools/src/brain3_mcp_vault_tools/tools/patch.py:34-76 | Headers with any text after a tab, as diff stamps them, change nothing: for every plain path the patch parses as without headers |
| `PatchHeaders.StampedRoundTrip` | brain3-mcp-vault-tools/src/brain3_mcp_vault_tools/tools/patch.py:34-76 | With stamped headers, canonical hunks parse back if no line looks like a file header, and are refused as multi-file otherwise |
| `PatchHeaders.StampIsFree` | brain3-mcp-vault-tools/src/brain3_mcp_vault_tools/tools/patch.py:34-40 | What follows the first tab of a header never matters to the path named |
| `PatchHeaders.NamedHeadersDecide` | brain3-mcp-vault-tools/src/brain3_mcp_vault_tools/tools/patch.py:58-76 | Any two header names before a well-formed patch: refused as unsupported if one names no path, as a rename if they differ, as a mismatch if they name another file, and without effect otherwise |
| `PatchHeaders.FirstLineDecides` | brain3-mcp-vault-tools/src/brain3_mcp_vault_tools/tools/patch.py:57-79 | A text that starts neither with a hunk nor with a header, a header without its partner, and headers without hunks are refused, each with its error |
| `PatchHeaders.BodyStopsAt` | brain3-mcp-vault-tools/src/brain3_mcp_vault_tools/tools/patch.py:97-109 | The first line that cannot stand in a hunk refuses the patch, as multi-file, as an end-of-file marker or as a bad line |
| `PatchHeaders.HunkDecides` | brain3-mcp-vault-tools/src/brain3_mcp_vault_tools/tools/patch.py:80-135 | One hunk in full: bad header, header lookalike, wrong count, or exactly the hunk written, with the lines after it left over |
| `PatchHeaders.LaterHunksDecide` | brain3-mcp-vault-tools/src/brain3_mcp_vault_tools/tools/patch.py:79-135 | Hunks in order are kept, and what follows them decides the outcome |
| `PatchHeaders.MatchHeaderIff` | brain3-mcp-vault-tools/src/brain3_mcp_vault_tools/tools/patch.py:15 | The header pattern matches exactly the lines of the written-out form, and reads exactly their numbers |
| `PatchCanonical.CanonicalIsWellFormed` | brain3-mcp-vault-tools/src/brain3_mcp_vault_tools/tools/patch.py:15 | Any hunks with headers as diff tools write them (counts of 1 left out or not, any section heading), true counts and single-line texts are well formed |
| `PatchCanonical.CanonicalRoundTrip` | brain3-mcp-vault-tools/src/brain3_mcp_vault_tools/tools/patch.py:52-140 | For all such hunk lists: without file headers the print parses back, or is refused as multi-file, as its lines decide; with them, for every path, it parses back if and only if the path is plain and no line looks like a file header |
| `PatchPrint.PrefixedPath` | brain3-mcp-vault-tools/src/brain3_mcp_vault_tools/tools/patch.py:34-40 | After `a/` or `b/` a path is normalised back to itself if and only if it has no tab and no space at its end |
| `PatchPrint.UnprefixedPath` | brain3-mcp-vault-tools/src/brain3_mcp_vault_tools/tools/patch.py:34-40 | Without prefix, a path comes back if and only if it has no tab, no space at either end, is not empty or `/dev/null`, and does not start with `a/` or `b/` |
| `PatchPrint.LineNamesPlainPath` | brain3-mcp-vault-tools/src/brain3_mcp_vault_tools/tools/patch.py:34-40 | No header line can name a path with a tab, a line break or a space at its end |
| `PatchPrint.ParseIsFaithful` | brain3-mcp-vault-tools/src/brain3_mcp_vault_tools/tools/patch.py:52-140 | A successful parse accounts for every line after the optional file headers: headers, body lines and counts are exactly those written, nothing dropped or invented |
| `PatchPrint.ReprintOfParsed` | brain3-mcp-vault-tools/src/brain3_mcp_vault_tools/tools/patch.py:52-140 | For every successful parse: printing gives the written lines back if and only if each header line is ended, and not by a surviving CRLF; and the print parses again to the same hunks if and only if no text holds a surviving CRLF |
| `PatchPrint.PrintOfParsed` | brain3-mcp-vault-tools/src/brain3_mcp_vault_tools/tools/patch.py:80-135 | For hunks rendering any lines, printing gives these lines if and only if each header line is ended, and not by a CRLF |
| `PatchPrint.ParsedPrintable` | brain3-mcp-vault-tools/src/brain3_mcp_vault_tools/tools/patch.py:80-135 | Parsed hunks whose texts hold no CRLF are well formed again when printed |
| `PatchPrint.ReparsedHasNoCrlf` | brain3-mcp-vault-tools/src/brain3_mcp_vault_tools/tools/patch.py:53-140 | A print that parses back to its hunks holds no CRLF |
| `PatchPrint.ParsedHunks` | brain3-mcp-vault-tools/src/brain3_mcp_vault_tools/tools/patch.py:80-135 | Every parsed hunk renders its lines, passes the count check and holds no header lookalike |
| `PatchPrint.ParsePrintedHunks` | brain3-mcp-vault-tools/src/brain3_mcp_vault_tools/tools/patch.py:80-135 | For any hunks with agreeing headers the hunk loop returns them if none looks like a file header, and the multi-file error otherwise |
| `PatchPrint.ParsePrintedBody` | brain3-mcp-vault-tools/src/brain3_mcp_vault_tools/tools/patch.py:97-109 | A printed body is read back, up to the next header, if none of its lines looks like a file header, and refused as multi-file otherwise |
| `PatchPrint.MatchHeaderText` | brain3-mcp-vault-tools/src/brain3_mcp_vault_tools/tools/patch.py:15 | The header pattern reads `@@ -a,b +c,d @@` as (a, b, d), for all numbers, with or without a count of 1 and with any section heading |
| `PatchPrint.MatchedStart` | brain3-mcp-vault-tools/src/brain3_mcp_vault_tools/tools/patch.py:15 | What matches the header pattern starts a hunk and is not a file header |
| `Lines.SplitOfConcat` | brain3-mcp-vault-tools/src/brain3_mcp_vault_tools/tools/patch.py:144 | Joining lines that stay apart and splitting again gives the lines back |
| `Lines.SplitIsWellSplit` | brain3-mcp-vault-tools/src/brain3_mcp_vault_tools/tools/patch.py:144 | `splitlines(keepends=True)` loses nothing, and its pieces are lines that stay apart |
| `Lines.SplitLaws` | brain3-mcp-vault-tools/src/brain3_mcp_vault_tools/tools/patch.py:144 | Splitting, written out: a text without break is one line, and a first line ends after its first break, CR LF counting as one |
| `Lines.ResplitIff` | brain3-mcp-vault-tools/src/brain3_mcp_vault_tools/tools/patch.py:144-183 | Splitting the join of a list gives the list back if and only if it is well split |
| `Lines.NormalizeCrlfIdentity` | brain3-mcp-vault-tools/src/brain3_mcp_vault_tools/tools/patch.py:53-56 | The CRLF replacement leaves a text without CRLF alone |
| `PatchTool.Vault.ApplyUnifiedDiff` | brain3-mcp-vault-tools/src/brain3_mcp_vault_tools/tools/patch.py:186-241 | One call changes at most the resolved file, to the specified text, with the specified reply; every other file is untouched |
| `PatchTool.EditFile` | brain3-mcp-vault-tools/src/brain3_mcp_vault_tools/tools/patch.py:193-229 | Hash check, parse, apply, dry run, size limit and write, in that order; what this comes to is said by the next rows |
| `PatchTool.UpdatedInOrder` | brain3-mcp-vault-tools/src/brain3_mcp_vault_tools/tools/patch.py:143-183 | The text a diff with hunks in file order makes: if every old side matches the lines it claims in the file as it was, all are replaced at once, and otherwise the diff is refused for its context |
| `PatchTool.CurrentHashIsTransparent` | brain3-mcp-vault-tools/src/brain3_mcp_vault_tools/tools/patch.py:195-202 | Passing the hash of the text a read would give is the same, in file and reply, as passing none, for every diff, dry run and failing write |
| `PatchTool.GoodPatchCommits` | brain3-mcp-vault-tools/src/brain3_mcp_vault_tools/tools/patch.py:195-229 | A call let through, with a diff that applies and changes the text to one of at most 1,000,000 UTF-8 bytes, writes that text and reports the change with both hashes; one that changes nothing leaves the file and says so |
| `PatchTool.CallFailsIff` | brain3-mcp-vault-tools/src/brain3_mcp_vault_tools/tools/patch.py:195-229 | A call fails exactly for a hash that is not current, a diff that does not apply, a changed text over the limit or a failing write, each with its own error, and a failed call writes nothing |
| `PatchTool.DryRunShows` | brain3-mcp-vault-tools/src/brain3_mcp_vault_tools/tools/patch.py:204-216 | A dry run let through shows both hashes, whether the texts differ, and header, start and counts of every hunk parsed, and leaves the file alone |
| `PatchTool.DryRunPredicts` | brain3-mcp-vault-tools/src/brain3_mcp_vault_tools/tools/patch.py:204-229 | A dry run changes nothing; it fails exactly as the real call would; otherwise the real call fails exactly when a changed text exceeds the size limit or the write fails, and else returns the predicted flag and hash |
| `PatchHash.ReturnedHashIsCurrent` | brain3-mcp-vault-tools/src/brain3_mcp_vault_tools/tools/patch.py:217-229 | With an injective hash, the hash returned by a successful patch is the hash of the next read if no inserted text of the diff holds a carriage return, and for hunks in file order only if |
| `PatchHash.UpdatedCr` | brain3-mcp-vault-tools/src/brain3_mcp_vault_tools/tools/patch.py:143-183 | For hunks in any order no carriage return gets into the text without one being inserted; for hunks in file order it does exactly when one is |
| `PatchHash.CrMakesHashStale` | brain3-mcp-vault-tools/src/brain3_mcp_vault_tools/tools/patch.py:217-229 | Concrete input: a diff that adds `b` ended by a carriage return to the file `a` succeeds and returns a hash that no read will give |
| `PatchTool.GuardedRunsAreSerial` | brain3-mcp-vault-tools/src/brain3_mcp_vault_tools/tools/patch.py:193-229 | In every run of reads, edits, dry runs and failing writes by any number of clients that pass their last hash, the file is the committed diffs applied one after the other, each on the version its author had seen |
| `PatchTool.StepKeepsSerial` | brain3-mcp-vault-tools/src/brain3_mcp_vault_tools/tools/patch.py:193-229 | Each single call keeps that invariant, and keeps every held hash the hash of the text its holder saw |
| `PatchTool.StaleEditIsRefused` | brain3-mcp-vault-tools/src/brain3_mcp_vault_tools/tools/patch.py:195-197 | In every reachable state, an edit by a client whose text is no longer the file's is refused with a hash mismatch and changes nothing |
| `PatchTool.CurrentEditCommits` | brain3-mcp-vault-tools/src/brain3_mcp_vault_tools/tools/patch.py:193-229 | Progress: in every reachable state, an edit by a client whose text is the file's, with a diff that changes it within the limit, is committed: exactly one commit is added, and the client holds the new text and hash |
| `PatchTool.ReadSees` | brain3-mcp-vault-tools/src/brain3_mcp_vault_tools/tools/read.py:46-94 | A read gives its client the file's text and its hash, and changes nothing else |
| `PatchTool.ReadText` | brain3-mcp-vault-tools/src/brain3_mcp_vault_tools/vault.py:54 | The text read never holds a carriage return |
| `PatchTool.ReadTextIdentity` | brain3-mcp-vault-tools/src/brain3_mcp_vault_tools/vault.py:54 | Reading is the identity exactly on texts without carriage return |
| `PatchTool.NormLaws` | brain3-mcp-vault-tools/src/brain3_mcp_vault_tools/tools/patch.py:155-164 | Two lines compare equal exactly when their normalised texts, without variation selectors, differ at most in newlines at the end |
| `ReadTool.NumberedLines` | brain3-mcp-vault-tools/src/brain3_mcp_vault_tools/tools/read.py:18-94 | For every request, the numbered lines of the reply are exactly the window's lines with their numbers in the file, none missing |
| `ReadTool.WindowBounds` | brain3-mcp-vault-tools/src/brain3_mcp_vault_tools/tools/read.py:18-43 | A non-empty window lies inside the file and its content is the join of its lines |
| `ReadTool.WindowHoldsAsked` | brain3-mcp-vault-tools/src/brain3_mcp_vault_tools/tools/read.py:18-43 | For every combination of start, end and tail: the window's line numbers are exactly those asked for, its content is the join of these lines, and it is empty exactly when none was asked for |
| `ReadTool.WindowsConcatenate` | brain3-mcp-vault-tools/src/brain3_mcp_vault_tools/tools/read.py:18-43 | The windows 1..k and k+1.. always concatenate to the whole content |
| `ReadTool.TailIsWindow` | brain3-mcp-vault-tools/src/brain3_mcp_vault_tools/tools/read.py:26-29 | The last t lines are the window that starts at total - t + 1 |
| `ReadTool.WindowPatch` | brain3-mcp-vault-tools/src/brain3_mcp_vault_tools/tools/read.py:86-94 | A hunk built from a numbered window is accepted if and only if every line of the window ends in a newline or (last line) nothing, and then replaces exactly those lines |
| `ReadTool.WindowPatchText` | brain3-mcp-vault-tools/src/brain3_mcp_vault_tools/tools/patch.py:143-183 | The same from printed diff text to new file text, through the parser; when a line of the hunk looks like a file header the diff is refused as multi-file |
| `ReadTool.NumberedTextMatches` | brain3-mcp-vault-tools/src/brain3_mcp_vault_tools/tools/patch.py:155-165 | A file line matches its numbered text plus newline exactly when it ends in a newline or in no terminator |
| `FrontmatterIndex.Index.ScheduleDebounce` | brain3-mcp-vault-tools/src/brain3_mcp_vault_tools/frontmatter_index.py:299-317 | The path becomes pending, the old timer is to be cancelled, a new one is armed |
| `FrontmatterIndex.Index.Handle` | brain3-mcp-vault-tools/src/brain3_mcp_vault_tools/frontmatter_index.py:393-431 | Directories and ineligible paths change nothing; an eligible file is scheduled |
| `FrontmatterIndex.Index.TakePending` | brain3-mcp-vault-tools/src/brain3_mcp_vault_tools/frontmatter_index.py:319-324 | The pending set is taken whole and the timer field cleared, whatever timer it held |
| `FrontmatterIndex.Index.Store` | brain3-mcp-vault-tools/src/brain3_mcp_vault_tools/frontmatter_index.py:343-366 | A parsed file's entry is replaced, an unreadable or vanished one's removed |
| `FrontmatterIndex.Index.Flush` | brain3-mcp-vault-tools/src/brain3_mcp_vault_tools/frontmatter_index.py:319-373 | With the vault at rest, exactly the pending paths get the entry a fresh read gives, and no other entry changes |
| `FrontmatterIndex.Index.BeginStop` | brain3-mcp-vault-tools/src/brain3_mcp_vault_tools/frontmatter_index.py:131-144 | A started index drops its pending set and hands out the timer to cancel; a stopped one changes nothing |
| `FrontmatterIndex.Index.Rebuild` | brain3-mcp-vault-tools/src/brain3_mcp_vault_tools/frontmatter_index.py:149-194 | The index becomes the fresh scan of the vault, and the count is its size |
| `FrontmatterIndex.FreshScanHolds` | brain3-mcp-vault-tools/src/brain3_mcp_vault_tools/frontmatter_index.py:149-194 | A scan stores the parsed frontmatter of exactly the eligible files that exist and parse |
| `FrontmatterIndex.Index.SearchByField` | brain3-mcp-vault-tools/src/brain3_mcp_vault_tools/frontmatter_index.py:201-256 | The loop answers exactly the specified hits with their entries; which these are is the next row |
| `FrontmatterIndex.SearchAnswers` | brain3-mcp-vault-tools/src/brain3_mcp_vault_tools/frontmatter_index.py:201-256 | What a search finds, if and only if, for each match type: an indexed path under the prefix with some field whose key is the queried one up to case and whose value equals the queried one (exact), has it inside (contains), or is anything (exists); nothing for another match type |
| `FrontmatterIndex.UnderPrefixIff` | brain3-mcp-vault-tools/src/brain3_mcp_vault_tools/frontmatter_index.py:222-238 | A path is under the prefix exactly if none was asked for, or the lower-cased path is the lower-cased prefix with some text after it |
| `FrontmatterIndex.Index.MatchEntry` | brain3-mcp-vault-tools/src/brain3_mcp_vault_tools/frontmatter_index.py:220-254 | A file is a hit if and only if the prefix fits and some field with the queried key matches in the asked way |
| `IndexSystem.NoLostWakeUp` | brain3-mcp-vault-tools/src/brain3_mcp_vault_tools/frontmatter_index.py:131-145 | In every interleaving of events, firings, late cancels, flushes and stops, a non-empty pending set has a timer that is armed, or has fired and not yet taken the lock |
| `IndexSystem.WakeStep` | brain3-mcp-vault-tools/src/brain3_mcp_vault_tools/frontmatter_index.py:299-324 | Every single step keeps the wake-up invariant |
| `IndexSystem.CacheAgreement` | brain3-mcp-vault-tools/src/brain3_mcp_vault_tools/frontmatter_index.py:149-180 | For each path by itself: in every reachable state, if only no flush took this path while another was working on it (and there was no stop), the path either has the entry a fresh scan would give, or a change to it is queued, pending or in a running flush |
| `IndexSystem.AgreementStep` | brain3-mcp-vault-tools/src/brain3_mcp_vault_tools/frontmatter_index.py:319-373 | Every step allowed for a path keeps the inductive agreement invariant for it, although flush bodies read files outside the lock |
| `IndexSystem.AgreementOverRuns` | brain3-mcp-vault-tools/src/brain3_mcp_vault_tools/frontmatter_index.py:319-373 | The agreement invariant for a path holds after every run allowed for it |
| `IndexSystem.StoreKeepsAgreement` | brain3-mcp-vault-tools/src/brain3_mcp_vault_tools/frontmatter_index.py:337-373 | What a flush stores is still true of the file, or a newer change to it is announced |
| `IndexSystem.TakeKeepsAgreement` | brain3-mcp-vault-tools/src/brain3_mcp_vault_tools/frontmatter_index.py:319-324 | Taking the pending set hands every pending path to the new flush body |
| `IndexSystem.DeliverKeepsAgreement` | brain3-mcp-vault-tools/src/brain3_mcp_vault_tools/frontmatter_index.py:393-431 | A delivered event moves an eligible path from the queue to the pending set and loses none |
| `IndexSystem.ChangeKeepsAgreement` | brain3-mcp-vault-tools/src/brain3_mcp_vault_tools/frontmatter_index.py:424-431 | A file change announces its path and leaves every other path's agreement as it was |
| `IndexSystem.FlushWorkKeepsAgreement` | brain3-mcp-vault-tools/src/brain3_mcp_vault_tools/frontmatter_index.py:330-354 | The existence test and the read keep hold of the path, and what they saw stays true unless a newer change is announced |
| `IndexSystem.StartAgrees` | brain3-mcp-vault-tools/src/brain3_mcp_vault_tools/frontmatter_index.py:46-129 | Right after the initial scan both invariants hold, for every path |
| `IndexSystem.QuiescentIndexIsFresh` | brain3-mcp-vault-tools/src/brain3_mcp_vault_tools/frontmatter_index.py:201-256 | At rest the index equals a fresh scan, and so does every search answer |
| `IndexSystem.SettledPathsAreAnsweredRightly` | brain3-mcp-vault-tools/src/brain3_mcp_vault_tools/frontmatter_index.py:201-256 | Even in motion, and whatever overlaps on other paths, every search answers about each path with no change under way as a fresh scan would |
| `IndexSystem.InternalStepsEnd` | brain3-mcp-vault-tools/src/brain3_mcp_vault_tools/frontmatter_index.py:299-373 | Once the files stop changing, every step decreases a well-founded measure, in every reachable state |
| `IndexSystem.NotStuck` | brain3-mcp-vault-tools/src/brain3_mcp_vault_tools/frontmatter_index.py:299-373 | Unless the system is at rest, a step is possible that is allowed for all paths |
| `IndexSystem.ReachableStatesSettleFresh` | brain3-mcp-vault-tools/src/brain3_mcp_vault_tools/frontmatter_index.py:201-373 | Convergence: from every reachable state some run without file changes, allowed for every path, comes to rest with an index equal to a fresh scan |
| `IndexSystem.Settle` | brain3-mcp-vault-tools/src/brain3_mcp_vault_tools/frontmatter_index.py:299-373 | From every state of the right shape some run without file changes comes to rest |
| `IndexSystem.ShapeStep` | brain3-mcp-vault-tools/src/brain3_mcp_vault_tools/frontmatter_index.py:299-373 | Every step, stops and overlaps included, keeps ineligible paths out, works each path once per flush, and never reuses a timer |
| `IndexSystem.OverlapCanAlwaysHarm` | brain3-mcp-vault-tools/src/brain3_mcp_vault_tools/frontmatter_index.py:319-373 | The exclusion of overlap is needed everywhere: from every reachable state with a flush body busy on a path, for any two contents with different entries, some continuation comes to rest with a stale entry for that path |
| `IndexSystem.SettleAround` | brain3-mcp-vault-tools/src/brain3_mcp_vault_tools/frontmatter_index.py:319-373 | While one flush body waits for the lock everything else can come to rest around it |
| `IndexSystem.OverlappingFlushesGoStale` | brain3-mcp-vault-tools/src/brain3_mcp_vault_tools/frontmatter_index.py:319-373 | The shortest such run, written out from an empty vault: two overlapping flush bodies leave the index permanently stale |
| `McpRouter.ListCallCoherence` | crates/core/src/application/mcp_router.rs:118-129 | For prefix-free container names, distinct native names, and native and vault names outside the namespaces, every entry of the merged tools/list is dispatched by tools/call to the source that listed it, under its original name; for a plugin entry this holds if and only if its original name is not empty |
| `McpRouter.PluginToolDispatch` | crates/core/src/application/mcp_router.rs:199-253 | Without any hypothesis on names: the exact condition under which a call to an advertised plugin tool reaches that plugin under the original name |
| `McpRouter.OnlyAdvertisedToolsAreCalled` | crates/core/src/application/mcp_router.rs:199-253 | No call ever reaches a plugin for a tool it did not advertise, and the forwarded name is the called name without that plugin's prefix |
| `McpRouter.PrefixFreeIff` | crates/core/src/application/mcp_router.rs:213-221 | Names are prefix-free if and only if no tool of one container, whatever its name, is intercepted by an earlier container |
| `McpRouter.NamespacesDisjoint` | crates/core/src/application/remote_mcp_container_client.rs:99-104 | With prefix-free names, a name in one container's namespace is stripped by no other |
| `McpRouter.RouteToolCall` | crates/core/src/application/mcp_router.rs:118-129 | Native tools, then the plugin loop, then the vault server: the target is the specified one, a matching plugin without the tool answering not found |
| `McpRouter.ForwardedRequest` | crates/core/src/application/remote_mcp_container_client.rs:122-162 | The forwarded request differs from the client's in the one renamed parameter only |
| `McpRouter.AppendedArray` | crates/core/src/application/mcp_router.rs:576-622 | The additions come after the upstream items; every other field of body and result is untouched; of the headers only content-length goes |
| `McpRouter.MergedTools` | crates/core/src/application/mcp_router.rs:447-478 | The merged list is the vault's tools, the native ones, then each plugin's in order |
| `McpRouter.EveryToolIsListed` | crates/core/src/application/mcp_router.rs:447-478 | The merged list in full, position by position: the vault's tools, every native tool, and every tool of every connected client, each once and in order, and nothing else |
| `McpRouter.PluginEntries` | crates/core/src/application/mcp_router.rs:447-478 | Each plugin entry of the list is some client's cached schema, and which one is known from its position |
| `McpRouter.NativeDispatch` | crates/core/src/application/mcp_router.rs:156-197 | A call by a native tool's listed name runs that tool |
| `McpRouter.VaultDispatch` | crates/core/src/application/mcp_router.rs:118-129 | A call by a name outside all namespaces and native names goes to the vault server |
| `McpRouter.CallGoesUpstream` | crates/core/src/application/mcp_router.rs:118-129 | A call goes to the vault server exactly when it names no tool, or one that is neither native nor in any container's namespace |
| `McpRouter.CallRunsNative` | crates/core/src/application/mcp_router.rs:156-197 | A native tool's name runs the first native tool of that name, whatever the plugins have |
| `McpRouter.CallInNamespace` | crates/core/src/application/mcp_router.rs:199-253 | A name in a namespace goes, without the prefix, to the first such container if it advertised that tool, and is not found otherwise |
| `McpRouter.FindNative` | crates/core/src/application/native_mcp_tool_registry.rs:28-37 | The first native entry of that name is found, and none is found only when there is none |
| `McpRouter.FirstByTool` | crates/core/src/application/mcp_router.rs:199-221 | The plugin loop stops at the first container whose prefix the name has |
| `PluginClient.PrefixToolSchemas` | crates/core/src/application/remote_mcp_container_client.rs:293-332 | The loop over a container's tools skips those without a string name and renames the others, in order |
| `PluginClient.PrefixToolsAt` | crates/core/src/application/remote_mcp_container_client.rs:293-332 | Every tool with a string name is listed, once and in order, wherever it stands, and no other |
| `PluginClient.PrefixedToolLaws` | crates/core/src/application/remote_mcp_container_client.rs:301-330 | What a listed tool shows: the prefixed name; the prefixed link where its own UI link is a cached resource, else the link it had; every other field, and every other `_meta` field, as it was; and only tools without a string name are left out |
| `PluginClient.CachedToolNames` | crates/core/src/application/remote_mcp_container_client.rs:293-332 | Every cached tool is listed under prefix plus original name, also after its UI link was rewritten |
| `PluginClient.SetToolUriLaws` | crates/core/src/application/remote_mcp_container_client.rs:630-662 | Setting a tool's UI link is read back, can be undone, and leaves every other field of the schema alone, in both places the link may stand |
| `ResourceUris.StripOfPrefix` | crates/core/src/application/remote_mcp_container_client.rs:599-628 | For names without delimiters, stripping a prefixed URI gives the URI back, for every prefixable URI |
| `ResourceUris.PrefixOfStrip` | crates/core/src/application/remote_mcp_container_client.rs:599-628 | Prefixing a stripped URI gives it back, for every URI of the namespace and every name |
| `ResourceUris.PrefixUriForm` | crates/core/src/application/remote_mcp_container_client.rs:599-628 | Prefixing written out: name and `__` go between the first `://` and a non-empty authority that ends at the first delimiter; without an authority there is nothing to prefix |
| `ResourceUris.RoundTripIff` | crates/core/src/application/remote_mcp_container_client.rs:599-628 | The round trip works for every URI if and only if the container name holds no `/`, `?` or `#` |
| `ResourceUris.BadNameFails` | crates/core/src/application/remote_mcp_container_client.rs:599-611 | Any name with a delimiter fails already on the URI `a://h` |
| `ResourceUris.SplitOfParts` | crates/core/src/application/remote_mcp_container_client.rs:613-628 | Scheme, non-empty authority and rest are read back from their concatenation |
| `ResourceUris.PartsOfSplit` | crates/core/src/application/remote_mcp_container_client.rs:613-628 | The parts found are a scheme up to the first `://`, a delimiter-free authority and a rest that starts at a delimiter |
| `McpRouter.PluginResourceDispatch` | crates/core/src/application/mcp_router.rs:297-351 | A listed plugin resource is read from the container that listed it, under its own URI |
| `McpRouter.OnlyOwnerStrips` | crates/core/src/application/remote_mcp_container_client.rs:604-611 | With prefix-free names no other container strips a prefixed URI |
| `McpRouter.ToolLinkIsReadable` | crates/core/src/application/remote_mcp_container_client.rs:429-461 | A UI link that its container declared is listed prefixed, and reading it through the router asks that container for the URI it declared |
| `McpRouter.ConnectedClients` | crates/core/src/application/remote_mcp_container_client.rs:33-71 | A client's caches, as connecting leaves them, satisfy what the dispatch results assume |
| `McpRouter.RouteResourceRead` | crates/core/src/application/mcp_router.rs:130-147 | Native resources, then the plugin loop, then the vault server: the target is the specified one; the next three rows say which that is, for every URI |
| `McpRouter.ReadGoesUpstream` | crates/core/src/application/mcp_router.rs:130-147 | A read goes to the vault server exactly when it names no URI, or one that is neither native nor stripped by any container |
| `McpRouter.ReadTakesNative` | crates/core/src/application/mcp_router.rs:255-295 | A native resource's URI reads the first native resource of that URI, whatever the plugins have |
| `McpRouter.ReadInNamespace` | crates/core/src/application/mcp_router.rs:297-351 | A URI some container strips goes, stripped, to the first such container if it declared that resource, and is not found otherwise |
| `McpRouter.FirstByUri` | crates/core/src/application/mcp_router.rs:297-323 | The resource loop stops at the first container that can strip the URI |
| `PluginClient.PrefixResourceSchemas` | crates/core/src/application/remote_mcp_container_client.rs:381-418 | The loop keeps the resources whose URI is a string with an authority, and renames them, in order |
| `PluginClient.PrefixResourcesAt` | crates/core/src/application/remote_mcp_container_client.rs:381-418 | Every resource with a string URI that has an authority is cached, once and in order, wherever it stands, and no other |
| `PluginClient.CachedResourceUris` | crates/core/src/application/remote_mcp_container_client.rs:381-418 | Each cached resource's two URIs are tied by the prefixing, and its schema shows the prefixed one |
| `PluginClient.PrefixReadReply` | crates/core/src/application/remote_mcp_container_client.rs:463-542 | The in-place rewriting of a read reply is the specified one, with error replies and non-JSON bodies passed through |
| `PluginClient.ReadReplyLaws` | crates/core/src/application/remote_mcp_container_client.rs:463-542 | A rewritten reply names the prefixed URI exactly where the original named the requested one, and keeps every other content and field |
| `PluginClient.ReadReplyPassesThrough` | crates/core/src/application/remote_mcp_container_client.rs:463-504 | A reply that is not JSON, reports an error or holds no array of contents is passed on unchanged |
| `PluginClient.FindResource` | crates/core/src/application/remote_mcp_container_client.rs:437-447 | A cached resource with that original URI is found exactly when there is one |
| `ConfigNames.ValidateContainers` | crates/platform/src/config/brain3_yaml.rs:160-181 | The loop with `seen_names` keeps exactly the entries with a valid name, no earlier entry of that valid name, and the other fields in order |
| `ConfigNames.ValidateContainer` | crates/platform/src/config/brain3_yaml.rs:183-224 | A valid name is reserved even when the entry is then rejected for another field |
| `ConfigNames.KeptAreDistinct` | crates/platform/src/config/brain3_yaml.rs:188-190 | The kept names are pairwise distinct |
| `ConfigNames.KeptNames` | crates/platform/src/config/brain3_yaml.rs:233-250 | Every kept name is valid |
| `ConfigNames.KeptIff` | crates/platform/src/config/brain3_yaml.rs:160-224 | A name is kept if and only if the first entry that reserves it is in order otherwise too |
| `ConfigNames.ValidNameIff` | crates/platform/src/config/brain3_yaml.rs:233-250 | A name is accepted if and only if it is made of one or more of a-z, 0-9 and `_`, and is not health, mcp or oauth |
| `ConfigNames.RequiredName` | crates/platform/src/config/brain3_yaml.rs:226-231 | White space at both ends of a configured name is dropped, and nothing else; a name with nothing left, or none at all, is missing |
| `ConfigNames.ValidNamesAreUsable` | crates/platform/src/config/brain3_yaml.rs:233-250 | A valid name holds no URI delimiter, and two valid names share a gateway mount only if they are equal |
| `ConfigNames.PrefixFreeIffNoClash` | crates/platform/src/config/brain3_yaml.rs:233-250 | For distinct names, the router's prefix-freeness holds if and only if no name is another plus `_`, or starts with another plus `__` |
| `ConfigNames.ClashIff` | crates/core/src/application/remote_mcp_container_client.rs:99-104 | One prefix extends another exactly when the names clash in one of those two ways |
| `ConfigNames.ValidationAllowsAClash` | crates/platform/src/config/brain3_yaml.rs:183-250 | Concrete input: `a` and `a_` are both accepted and are not prefix-free |
| `ConfigNames.PlainNamesArePrefixFree` | crates/platform/src/config/brain3_yaml.rs:233-250 | Distinct names that neither end in `_` nor contain `__` are prefix-free |
| `ContainerStartup.EnsurePluginContainer` | crates/platform/src/container/startup.rs:106-161 | Over every behaviour of the runtime, in three parts: the plugin's own managed container is recreated, touching nothing else; only after that succeeded come the orphans; only after these were handled as the policy asks, the startup proper. Whichever part ends it, the error is that part's own, for one of the reasons listed there. Stop and remove only for containers listed for this installation and role, at most one run, after image, free name and network were seen in that order |
| `ContainerStartup.EnsureVaultContainer` | crates/platform/src/container/startup.rs:66-104 | Orphans first: if they were handled as the policy asks the startup proper follows, otherwise it does not begin and the error is the orphan handling's. Stop and remove only for listed containers, none at all without the explicit policy; at most one run, guarded; success means started and reachable; an error of the startup is one of those of `Ensure`, and giving up on a closed port takes at least the 120 seconds |
| `ContainerStartup.HandleOrphans` | crates/platform/src/container/startup.rs:556-600 | Success: skipped; or listed, with nothing found; or, under the explicit policy only, every listed container shown gone and each running one asked to stop. Error: the listing's own; or, under fail-closed, the orphans found; or, under the explicit policy, a refused stop, wait or remove of one listed container, after all before it were gone |
| `ContainerStartup.ExplicitPolicyCollects` | crates/platform/src/container/startup.rs:584-707 | Under the explicit policy no error ever means that orphans were merely found: each is the listing's, that of a look at a listed container, or reports one that could not be stopped or removed or did not go away |
| `ContainerStartup.GarbageCollect` | crates/platform/src/container/startup.rs:602-707 | On success every listed container was seen or reported absent, or was removed; Docker containers are never removed; an error means that the stop, wait or remove of one container was refused, that all before it are gone, and that nothing after it was touched; giving up on a container that stays takes at least five seconds |
| `ContainerStartup.CollectOne` | crates/platform/src/container/startup.rs:608-705 | One container: stopped first, once, if and only if it was running; then on Docker looked for every 200 ms, at most 25 times more, and on macOS removed; it ends gone, or with the refusal that is reported |
| `ContainerStartup.WaitForContainerGone` | crates/platform/src/container/startup.rs:711-741 | The effects in full: looks that find the container, each followed by one poll interval, and a last look; absent means success, present only after the deadline a timeout, a failed look its own error; the number of polls is bounded |
| `ContainerStartup.MissingTexts` | crates/platform/src/container/startup.rs:550-554 | What counts as a vanished container: messages with one of three texts inside when recreating, with the first of them when collecting |
| `ContainerStartup.RecreateIfManaged` | crates/platform/src/container/startup.rs:474-548 | Nothing is stopped or removed unless the name exists and is listed for this scope, looked up in that order; success leaves the name free, foreign, or its container removed or vanished; an error is a failed lookup's, or a stop or remove refused for another reason than that |
| `ContainerStartup.StopAndRemove` | crates/platform/src/container/startup.rs:509-547 | All effects in all cases: stopped exactly when seen running, then removed; success if the remove worked or either answer says the container is gone, and otherwise the failed look's error or the general one |
| `ContainerStartup.GcTouchesListed` | crates/platform/src/container/startup.rs:566-598 | What garbage collection touches was returned by the listing before it |
| `ContainerStartup.Ensure` | crates/core/src/application/ensure_container.rs:59-144 | Four phases: image, checks, run, verification. No stop or remove; at most one run, after the image was seen, the name seen free, internal networks validated when isolated, and the network prepared; success means every phase succeeded; an error means every phase before one succeeded, that one was refused for one of its reasons, and none follows |
| `ContainerStartup.EnsureImage` | crates/core/src/application/ensure_container.rs:63-73 | The effects in full: seen at once, or absent, pulled and then seen; image-not-found exactly when it was absent, was pulled and was still absent; every other error is that of the look or pull that failed |
| `ContainerStartup.PrepareRun` | crates/core/src/application/ensure_container.rs:75-101 | The effects in full: name seen free, internal networks validated when isolated, network prepared; a conflict exactly when the name is taken; every other error is the failing check's |
| `ContainerStartup.AfterRun` | crates/core/src/application/ensure_container.rs:105-143 | An address is asked for exactly under the discovering strategy; without one the startup fails after the logs were asked for; with it, or without need of it, success and failure are those of the verification at that address |
| `ContainerStartup.VerifyStartup` | crates/core/src/application/ensure_container.rs:146-222 | The effects in full: rounds that met a closed port, each followed by one poll interval, then a last round that saw the container running and every port open, or the container down, or, only once the timeout has passed, a closed port; at most ceil(timeout / poll) + 1 rounds |
| `ContainerStartup.ProbeRound` | crates/core/src/application/ensure_container.rs:174-192 | One round: running state first, then the ports; a closed port ends the round |
| `ContainerStartup.PortsReady` | crates/core/src/application/ensure_container.rs:263-277 | Ports are probed in order up to the first closed one |
| `ContainerStartup.OpenProbesAt` | crates/core/src/application/ensure_container.rs:264-269 | The k-th probe goes to the k-th mapping: at a discovered address to the container's own port, otherwise to the published one |
| `ContainerStartup.NextProgressLog` | crates/core/src/application/ensure_container.rs:208-218 | The next mark is the least start + 5000k ms, k >= 1, beyond the time checked |
| `ContainerStartup.AttemptsBound` | crates/platform/src/container/startup.rs:711-741 | As long as the polls so far do not cover the timeout, one more stays within ceil(timeout / interval) |
| `RuntimeLogs.IncrementalIsBatch` | apps/gateway/src/tui/runtime_logs.rs:136-161 | However the text is cut into chunks, the ring is the last `max_lines` complete lines of all text seen and the partial line is the text after the last newline |
| `RuntimeLogs.LinesOfAppend` | apps/gateway/src/tui/runtime_logs.rs:136-154 | Text that follows only meets the unfinished line: the lines of a + b are those of a and those of its remainder + b |
| `RuntimeLogs.FinishedLine` | apps/gateway/src/tui/runtime_logs.rs:147-152 | A finished line is the text before its newline without the carriage returns at its end, for every line, and the rest is read as it would be by itself |
| `RuntimeLogs.UnfinishedLine` | apps/gateway/src/tui/runtime_logs.rs:147-153 | A text without newline gives no line and is kept whole |
| `RuntimeLogs.LastOfLast` | apps/gateway/src/tui/runtime_logs.rs:156-161 | Trimming the ring after every line or once at the end is the same |
| `RuntimeLogs.Logs.Refresh` | apps/gateway/src/tui/runtime_logs.rs:41-88 | Keeps the invariant; consumes exactly the bytes after the offset, restarting after a truncation; as long as the bytes read so far cut no character off, the text seen is the decoding of all of them, and where the file holds a UTF-8 text the lines are exactly that text's; failures leave the lines alone |
| `Utf8.CutIff` | apps/gateway/src/tui/runtime_logs.rs:141 | Decoding in two pieces agrees with decoding in one, for every continuation, if and only if the first piece cuts no character off |
| `Utf8.DecodeOfEncode` | apps/gateway/src/tui/runtime_logs.rs:141 | The lossy decoder reads every encoded text back, and an encoded text cuts no character off |
| `Utf8.DecodeAppend` | apps/gateway/src/tui/runtime_logs.rs:141 | After bytes that cut no character off, what follows is decoded as it would be by itself |
| `Utf8.WholeIff` | apps/gateway/src/tui/runtime_logs.rs:141 | A character is read exactly where its encoding stands |
| `Utf8.CutPieceIff` | apps/gateway/src/tui/runtime_logs.rs:141 | The bytes are cut off exactly when they are a proper beginning of some encoding |
| `Utf8.BadIsMaximal` | apps/gateway/src/tui/runtime_logs.rs:141 | An ill-formed piece is one byte, or as long a beginning of an encoding as the bytes have |
| `Utf8.CutCharacter` | apps/gateway/src/tui/runtime_logs.rs:141-144 | Concrete input: the two bytes of U+00E9 read in two refreshes give two replacement characters |
| `RuntimeLogs.Logs.IngestBytes` | apps/gateway/src/tui/runtime_logs.rs:136-154 | The chunk loop leaves the ring and the partial line as the batch reading of the text seen |
| `RuntimeLogs.Logs.PushLine` | apps/gateway/src/tui/runtime_logs.rs:156-161 | The ring drops its oldest line only when full |
| `RuntimeLogs.Logs.ScrollOffsetForHeight` | apps/gateway/src/tui/runtime_logs.rs:117-134 | When the ring overflows the view, offset plus height stays inside the ring, the offset is the scrolled one, following shows the end, and the u16 limit never bites |
| `RuntimeLogs.Logs.ScrollUp` | apps/gateway/src/tui/runtime_logs.rs:102-105 | Keeps `follow` if and only if at the bottom; the distance is clamped to the ring |
| `RuntimeLogs.Logs.ScrollDown` | apps/gateway/src/tui/runtime_logs.rs:107-110 | Keeps the invariant; the distance does not fall below zero |
| `RuntimeLogs.Logs.JumpToEnd` | apps/gateway/src/tui/runtime_logs.rs:112-115 | Follows again, invariant kept |
| `RuntimeLogs.Logs.constructor` | apps/gateway/src/tui/runtime_logs.rs:28-39 | A new log satisfies the invariant with nothing seen |
| `RuntimeLogs.Logs.NormalizeScroll` | apps/gateway/src/tui/runtime_logs.rs:180-183 | `follow` holds if and only if the clamped distance is zero |
| `RuntimeLogs.Logs.ResetFileState` | apps/gateway/src/tui/runtime_logs.rs:163-169 | After a truncation the invariant holds with nothing seen |
| `Shell.Command` | apps/gateway/src/main.rs:376-415 | For every argument combination, reading the printed command by the POSIX shell rules gives exactly the unquoted argument list, and starting that starts the same mode with the same arguments |
| `Shell.GcContainersRerunCommand` | apps/gateway/src/main.rs:417-423 | The garbage-collection command starts the same mode with the same arguments but the flag set |
| `Shell.CommandParts` | apps/gateway/src/main.rs:376-411 | The vector built step by step is the quoted argument list |
| `Shell.QuoteIsRead` | apps/gateway/src/main.rs:453-465 | A quoted value, empty or with single quotes in it, is read back as one word |
| `Shell.QuotedRun` | apps/gateway/src/main.rs:464 | Inside single quotes every text, its quotes escaped, is read back |
| `Shell.JoinedIsRead` | apps/gateway/src/main.rs:413-415 | The shell reads any non-empty joined list of quoted values as those values |
| `Shell.ArgumentListIsRead` | apps/gateway/src/main.rs:376-411 | Reading the list as options gives the arguments back, with one mode flag, and `--gc-containers` once exactly when it is set |
| `Shell.ReadMode` | apps/gateway/src/main.rs:183-192 | Each mode's flag selects that mode again |
| `Shell.QuotedUnlessPlain` | apps/gateway/src/main.rs:453-465 | A value is printed as it is if and only if it is made of one or more ASCII letters, digits and `/._-:=` |
| `Shell.RerunAsksOnce` | apps/gateway/src/main.rs:417-423 | The re-run command holds `--gc-containers` exactly once as a flag and changes no other argument |
| `Listing.ListDirectory` | brain3-mcp-vault-tools/src/brain3_mcp_vault_tools/vault.py:154-224 | The outcome is the specified walk to depth min(depth, 5), the not-a-directory error, or an error raised by the directory test or by reading a directory |
| `Listing.Walker.Walk` | brain3-mcp-vault-tools/src/brain3_mcp_vault_tools/vault.py:175-221 | The recursive walk raises exactly when the specification says, and otherwise appends to the shared list exactly the rows of its directory, after what was there |
| `Listing.ListedIff` | brain3-mcp-vault-tools/src/brain3_mcp_vault_tools/vault.py:166-221 | When the call does not raise, a row is listed if and only if it is at most min(depth, 5) deep and its path leads, through readable directories and past none of the four excluded names, to a file that can be looked up, or a directory, of the kinds asked for and with a name that fits the pattern |
| `Listing.ListingIsInOrder` | brain3-mcp-vault-tools/src/brain3_mcp_vault_tools/vault.py:181-221 | A directory's row comes before the rows below it, and siblings with all below them in the order visited |
| `Listing.RaisesIff` | brain3-mcp-vault-tools/src/brain3_mcp_vault_tools/vault.py:168-185 | The call raises, whatever the options, if and only if the root is barred, or readable directories lead to an entry whose directory test raises within the depth, or to a directory the walk would read and whose reading fails other than by permission |
| `Listing.FilteredListingIsFilter` | brain3-mcp-vault-tools/src/brain3_mcp_vault_tools/vault.py:188-221 | For every tree, depth and options the call has the same kind of outcome as the unfiltered one, and its rows are the filtered rows of that one |
| `Listing.DepthOnlyCutsLevels` | brain3-mcp-vault-tools/src/brain3_mcp_vault_tools/vault.py:166-177 | A shallower listing is the deeper one without its deeper levels, raises no more often, and nothing changes beyond depth 5 |
| `Listing.FilteredEntries` | brain3-mcp-vault-tools/src/brain3_mcp_vault_tools/vault.py:181-221 | The rows a filtered walk adds are exactly the wanted ones among those the full walk adds |

## Left out

- PatchTool.GuardedRunsAreSerial: assumes that SHA-256 is injective and that a tool call is one step; the gap between read and atomic rename inside one call is not modelled.
- ReadTool.WindowPatch: assumes that NFC leaves a line terminator at the end of a string alone; the NFC tables are a parameter.
- IndexSystem.CacheAgreement: excludes a stop and, for the path in question, flushes that overlap on it (for the latter the claim is false, see `IndexSystem.OverlapCanAlwaysHarm`), and starts from a complete scan: changes between the scan and the watcher's start, and a rebuild concurrent with a flush, are not modelled.
- RuntimeLogs.Logs.Refresh: a truncation followed by regrowth past the offset goes unnoticed, as in the code; the u64 saturation of the offset is not modelled.
- Shell.ArgumentListIsRead: reads options as clap's long options with a separate value; clap's refusal of values that start with `-` is not modelled, nor are non-UTF-8 paths (printed lossily) and `--log-level`, which the code does not reprint.
- Listing.ListedIff: the tree is finite and does not change during the call, so the stat of an entry that has just been found to be a directory works; whether the directory test raises or answers no for an entry that cannot be looked up (it answers no from Python 3.14 on, with which the shipped image is built) is left to the tree; children come in the order visited: sorting by lower-cased name, sizes, dates and symbolic-link loops are not modelled.
- FrontmatterIndex.Index.SearchByField: results are a map by path; the order in which a dictionary yields them is not modelled.
- PatchParse.ParseUnifiedDiff: the kinds of error are modelled, their codes, messages and detail payloads are not; `\d` matches ASCII digits only, and Python's limit on the length of integer literals is not modelled.
- ContainerStartup.GarbageCollect: container labels, image, environment and mount settings are not modelled, as no branch depends on them; garbage collection recognises a missing container by a narrower message test than recreation does, as in the code.
- PatchHash.ReturnedHashIsCurrent: for hunks out of file order only one direction holds, as a later hunk can delete what an earlier one inserted.
- ConfigNames.ValidateContainers: the checks on the fields after the name are one flag per entry.
- McpRouter.AppendedArray: a body is a parsed value or not JSON; duplicate keys, key order and number precision are not modelled.
- Moved file events: the code only logs them.
- Path resolution, YAML parsing, `str.lower`, `fnmatch`, SHA-256 and NFC are parameters.
- HTTP serving, proxying, tracing, OAuth, the terminal screens and the setup wizard: library plumbing or user interface.
- The `initialize` reply's capability patch, the startup tool inventory and the merged resources/list: the same JSON update as tools/list, with nothing harder to state.
- Shutdown of containers (`stop_mcp_container`, `stop_plugin_mcp_container`): a single stop each.
- Move, delete, create and batch read tools: one file operation each, delegated to the operating system.
