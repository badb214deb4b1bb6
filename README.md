# snapshot-web-as-md: the combiner and the chunk bookkeeping, in Dafny

This project models two parts of the snapshot-web-as-md scripts and proves
what they guarantee.

**The size-bounded Markdown combiner** (`combine_md_files` in combine.py).
The `.md` files of a directory are sorted by name. They are packed greedily,
in order, into numbered output files. Inside an output, the files are joined
by the separator `"\n\n---\n\n"`. A file larger than the limit closes an
output that it shares only with empty files accumulated just before it.
- Module `Combine` (combine.dfy) models the loop as the source runs it: the
  class `Combiner` holds the `nonlocal` variables. Beside it are pure step
  functions (`WriteStep`, `OfferStep`, `OfferAll`, `Combined`), and the
  methods are proved equal to them.
- Module `CombineProofs` (combine_proofs.dfy) proves what a whole run
  guarantees about the outputs:
  - no file is dropped, duplicated or reordered;
  - outputs are numbered 1, 2, 3, ...;
  - content and size are accounted for;
  - an output exceeds the size limit only when all its bytes come from its
    last file, which then shares it only with empty files;
  - an output is closed only when the next file does not fit.

**The chunk bookkeeping of download.py.**
- Module `UrlStatus` (url_status.dfy) covers the URL status table: reading
  it from the sources text, choosing the next chunk of not-started URLs and
  marking them in progress, and marking completed URLs.
  - The dict is a sequence of `(url, status)` entries with unique keys, so
    insertion order is explicit.
  - Methods return the updated table instead of mutating a shared dict.
- Module `ChunkMarkdown` (chunk_markdown.dfy) covers the assembly of one
  run's Markdown from its parquet files:
  - a heading per file that is read;
  - one section per column, except the skipped columns;
  - an error note when processing a file raises;
  - a rule after each file;
  - removal of the trailing rule.

  The Markdown is built by appending, as in the source. It is specified as
  the rendering of a sequence of blocks (`DocumentBlocks`).

Module `Text` (text.dfy) gives the Python string operations the code relies
on:
- `str.strip()` with Python's whitespace set;
- `startswith` and `endswith`;
- an ASCII `lower()`;
- code-point lexicographic order for `list.sort()` on names.

## What the code guarantees

An output with two or more files can exceed the size limit. The
oversized-file branch (combine.py:113-119) does not clear the member list, so
an empty (0-byte) file accumulated just before an oversized file is listed in
the oversized file's output. That output has two members and exceeds the
limit (`CombineProofs.EmptyFileJoinsOversizedOutput`). The exact guarantee:
- an output is within the limit, or all its bytes come from its last member
  and every other member is an empty file (`CombineProofs.CombinedWithinLimit`);
- an output with two members that both have bytes is within the limit
  (`CombineProofs.MultiMemberOutputFits`).

The final write is skipped when the content is empty (combine.py:76-77).
Empty files at the end of the input that start a new output are therefore
listed in no output: this happens after an oversized file was written, after
a flush, or when every file is empty
(`CombineProofs.CombinedListsEveryNonEmptyFile`). A trailing empty file that
joins an output which already has bytes is listed, after a separator
(`CombineProofs.TrailingEmptyFileJoins`).

The selection step tests the count after each entry (download.py:166), so a
cap of 0 still takes the first entry when it is not started.
`UrlStatus.SelectNextUrls` states both cases.

## Model

| member | source | states |
|---|---|---|
| Text.Strip | download.py:89 | the result has no whitespace (Python's `isspace` set) at either end, is no longer than the input, and equals the input when neither end is whitespace |
| Text.StripCutsOnlySpace | download.py:89 | the stripped string is a middle part of the input, and everything cut from its front and from its back is whitespace; with `Strip`'s own contract this is exactly `str.strip()` |
| Text.LexLeTotal | combine.py:53 | any two names are ordered one way or the other, so the sort is defined on every listing |
| Text.LexLeTransitive | combine.py:53 | the name order is transitive |
| Combine.WriteStep | combine.py:73-95 | writing keeps every file in order; with empty content nothing changes and the number stays; otherwise one output is added, the number goes up by one and the accumulation restarts empty |
| Combine.OfferStep | combine.py:106-133 | after one file, the written outputs' members followed by the pending members are the previous ones plus that file |
| Combine.OfferAll | combine.py:99-133 | after any sequence of files, written plus pending members are the previous ones followed by those files, in order |
| Combine.Combined | combine.py:99-146 | after the final write, the members of the written outputs followed by what is left unwritten are exactly the input, in order |
| Combine.Combiner.constructor | combine.py:68-71 | the loop starts at output number 1 with no content, size 0, no members and nothing written |
| Combine.Combiner.WriteOutputFile | combine.py:73-95 | the state after the call is `WriteStep` of the state before |
| Combine.Combiner.Offer | combine.py:106-133 | the state after offering a file is `OfferStep` of the state before |
| Combine.MarkdownFiles | combine.py:51-52 | a document is selected if and only if it comes from a directory entry that is a file whose lower-cased name ends in `.md`; the selected documents are those entries, each once, in listing order |
| Combine.InsertByName | combine.py:53 | inserting into a name-sorted list gives a sorted list with exactly one more element |
| Combine.SortByName | combine.py:53 | the result is sorted by name and is a permutation of the input |
| Combine.CombineMdFiles | combine.py:51-146 | the outputs written are those of `Combined` on the sorted Markdown files; none when there are no such files |
| CombineProofs.JoinedIsSeparatorJoin | combine.py:127-131 | when the first member has bytes, the output content is the members' contents joined by the separator |
| CombineProofs.OfferStepKeepsInv | combine.py:107-133 | one file keeps the loop invariant: written outputs numbered, accounted, within the limit and flushed only when full; the pending output accounted |
| CombineProofs.OfferAllKeepsInv | combine.py:99-133 | the loop invariant holds after any sequence of files |
| CombineProofs.CombinedOutputsGood | combine.py:99-146 | after a run every written output is numbered, non-empty, accounted and within the limit, and what is left unwritten has no content and size 0 |
| CombineProofs.CombinedNumbersOutputs | combine.py:68-88 | the k-th written output has number k + 1, for every input |
| CombineProofs.CombinedListsEveryNonEmptyFile | combine.py:76-146 | the written outputs list the input in order except a trailing run of empty files; when the last file has bytes they list all of it |
| CombineProofs.CombinedAccounting | combine.py:107-132 | every output's content is its members joined with a separator after each member that follows bytes, and its size is their sizes plus one separator length per separator |
| CombineProofs.CombinedWithinLimit | combine.py:113-123 | every output is within the limit, or its bytes are all its last member's and its other members are empty files |
| CombineProofs.OversizedFileIsolated | combine.py:113-123 | a file over the limit is the last member of its output, the output's size is that file's size, and every other member is an empty file |
| CombineProofs.MultiMemberOutputFits | combine.py:122 | an output holding two files that both have bytes is within the limit |
| CombineProofs.CombinedFlushesOnlyWhenFull | combine.py:122-123 | every output but the last was closed because the next output's first file, with a separator, would have taken it over the limit |
| CombineProofs.FinishIsIdempotent | combine.py:76-77 | a second write right after a write changes nothing |
| CombineProofs.CombinedEmptyInput | combine.py:58-60 | no input files give no output files |
| CombineProofs.EmptyFileJoinsOversizedOutput | combine.py:113-118 | an empty file followed by a 2-byte file with limit 1 gives one output of size 2 listing both |
| CombineProofs.SeparatorIsCounted | combine.py:107-123 | three 10-byte files with limit 30 give outputs of sizes 27 and 10, because the separator's 7 bytes are counted |
| CombineProofs.TrailingEmptyFileJoins | combine.py:124-146 | a 10-byte file then an empty file with limit 30 give one output of size 17 listing both, its content ending with the separator |
| CombineProofs.TotalAtLimitFits | combine.py:122 | files of 10 and 13 bytes with limit 30 fit in one output of exactly 30 bytes |
| UrlStatus.Assign | download.py:99 | assigning a key keeps the keys unique; an existing key keeps its place and takes the new status; a new key is added at the end; every other entry is unchanged |
| UrlStatus.AssignKeys | download.py:99 | the key order after an assignment is unchanged for an existing key, or extended by the new key |
| UrlStatus.ValidUrlsElement | download.py:89-99 | a string is kept if and only if it is a stripped line starting with `http://` or `https://` |
| UrlStatus.ParseSources | download.py:87-99 | the table read from the lines has unique keys |
| UrlStatus.ParseSourcesKeys | download.py:87-99 | the keys read are the http(s) stripped lines without repeats, in order of first appearance |
| UrlStatus.ParseSourcesNotStarted | download.py:99 | every entry read from the text is "not started" |
| UrlStatus.ReadSourceLines | download.py:86-99 | the loop gives unique keys in first-appearance order; a URL is a key if and only if it is a stripped line with an http(s) prefix; every status is "not started" |
| UrlStatus.SelectionStops | download.py:166-167 | where the loop stops, the keys taken are the first `cap` not-started keys in dict order |
| UrlStatus.SelectionMarks | download.py:151-163 | each entry of the walked prefix is "in progress" exactly when it was taken, and every key taken was "not started" |
| UrlStatus.SelectNextUrls | download.py:148-167 | for a positive cap the keys taken are the first `cap` not-started keys in order; a cap of 0 takes at most the first entry; each key taken becomes "in progress" and every other entry is unchanged |
| UrlStatus.MarkAll | download.py:123-125 | marking keeps the keys unique and never removes an entry |
| UrlStatus.MarkAllExisting | download.py:123-125 | an existing entry becomes "complete" exactly when its key is among the completed keys, and is otherwise unchanged |
| UrlStatus.MarkAllAdded | download.py:123-125 | an entry past the old end is a completed key the dict did not hold, with status "complete" |
| UrlStatus.MarkAllKeepsKeys | download.py:123-125 | the keys the dict held stay where they were |
| UrlStatus.MarkAllCovers | download.py:123-125 | every completed key is in the dict afterwards; when all were already there, no entry is added |
| UrlStatus.MarkComplete | download.py:119-125 | the loop's result agrees with `MarkAll`: completed keys are "complete", other entries unchanged, unknown keys appended |
| UrlStatus.ChunkBookkeeping | download.py:291 | after a run every URL chosen in it is "complete", every other entry keeps its status, and no entry is added |
| ChunkMarkdown.SiteName | download.py:230 | the site name is the file name without its last eight characters, so a `.parquet` name gives the name before the extension |
| ChunkMarkdown.FileBlocks | download.py:227-259 | the blocks of every file end with a rule, whether it was read or not |
| ChunkMarkdown.SkippedColumnsAbsent | download.py:236-249 | every column heading or text block belongs to a column that is not skipped |
| ChunkMarkdown.KeptColumnsShown | download.py:236-249 | when no column raises, every column that is not skipped gets its heading immediately followed by its text |
| ChunkMarkdown.DocumentSkipsColumns | download.py:217-259 | no column heading in the whole document names `document_id` or `size` |
| ChunkMarkdown.OneRulePerFile | download.py:259 | the document has exactly one rule per file and ends with one |
| ChunkMarkdown.StripTrailingRule | download.py:272-274 | a text ending in `"\n---\n\n"` loses exactly its last five characters, the rule; any other text is kept |
| ChunkMarkdown.DocumentLosesOnlyFinalRule | download.py:259-274 | for a run with files, stripping removes exactly the rule after the last file: the result renders every other block |
| ChunkMarkdown.AppendColumns | download.py:236-255 | the column loop appends the rendering of the column blocks, stopping with an error note at the first column that raises |
| ChunkMarkdown.AppendFile | download.py:227-259 | one iteration appends exactly the rendering of that file's blocks |
| ChunkMarkdown.AssembleMarkdown | download.py:214-259 | the loop builds the rendering of all files' blocks, in order |
| ChunkMarkdown.ChunkMarkdown | download.py:205-274 | nothing is saved exactly when there are no parquet files; otherwise the saved text is every block but the final rule, rendered |
| ChunkMarkdown.AppendColumnsAsWritten | download.py:236-255 | the column loop as written ends the run exactly when INFO logging is on and a column that is not skipped raises; otherwise it appends the rendering of the column blocks |
| ChunkMarkdown.AppendFileAsWritten | download.py:226-259 | one iteration as written ends the run exactly when INFO logging is on and the file's read fails or one of its columns raises; otherwise it appends that file's blocks |
| ChunkMarkdown.AssembleAsWritten | download.py:214-259 | the file loop as written ends the run exactly when INFO logging is on and some file fails; otherwise it builds the rendering of all files' blocks, so with INFO logging off it gives the intended Markdown |
| ChunkMarkdown.FailedReadNoted | download.py:251-255 | a file whose read fails gets its error note in the document |
| ChunkMarkdown.UnreadableFileAbortsRun | download.py:226-274 | for one unreadable file with INFO logging on, the loop as written ends the run, while the intended saved Markdown is that file's error note |

## Findings

| source | as written | input that shows it | evidently intended | confidence | as-written member | corrected member |
|---|---|---|---|---|---|---|
| download.py:252-253 | the exception handler calls `logger.info(..., file=sys.stderr)`; `Logger.info` passes the `file` keyword on and the logger rejects it with `TypeError` when INFO is enabled, which the entry point sets (download.py:304); the run ends before the error note is appended, and the chunk's URLs stay "in progress" | one parquet file whose read raises, with INFO logging on | the error is logged and `**Error processing <file>:**` is appended, then the loop goes on | not executed; follows from the signature of Python's `Logger.info` | ChunkMarkdown.AssembleAsWritten | ChunkMarkdown.FailedReadNoted |

The rest of the model (`AppendFile`, `AssembleMarkdown`, `ChunkMarkdown`)
follows the intended behaviour: the error note is appended and the loop goes
on.

## Left out

- File I/O is not modelled. This covers the directory listing, reading and
  writing files, `os.path.getsize`, and the JSON snapshot read and write
  (download.py:63-80, 127-129). A document is given by its name, its size in
  bytes and its text; a parquet file by its name and what reading it gives.
- CombineProofs: every whole-run lemma requires each file's size to be 0
  exactly when its text is empty (`WellFormed`). This takes
  `os.path.getsize` and `read()` to describe the same, unchanged file; a file
  changed between the two calls is not modelled.
- The combiner's per-file read exception branches (combine.py:137-142) are
  not modelled: a file that cannot be read is simply never offered.
- The `IOError` branch of `write_output_file` (combine.py:92-95) is not
  modelled; every write is taken to succeed.
- The input validation and `sys.exit` calls (combine.py:26-43) are not
  modelled, and neither are the output file names.
- Logging and prints are not modelled. The one exception is the finding above.
- Crawling and HTML conversion (`Web2Parquet`, `Html2Parquet`) and pandas are
  external libraries.
  - A frame is its row count and its columns.
  - A column's text is the string `to_string` gives, or the message of the
    exception it raises.
  - A read is a frame or the message of the exception it raises.
- The parquet directory listing, its `.parquet` filter and its sort
  (download.py:194-209) are not modelled. Files are taken in the order given.
- The timestamped output file name (download.py:263) depends on the clock and
  is not modelled.
- `ChunkMarkdown.ChunkMarkdown` omits the `len(file_sources) > 0` and
  `current_md_content` tests (download.py:262, 270). Both always hold when
  there is at least one file, and the model returns nothing exactly when
  there is none.
- The `__main__` driver, its argument handling and its loop
  (download.py:298-349) are not modelled.
- The unreachable `url_dict is None` path (download.py:114-117) is not
  modelled.
- When the JSON snapshot holds something other than a dict, the text path
  assigns into that value. This case is left out, together with the JSON
  path.
- A status read from JSON can be any string; the model has the three statuses
  the code writes.
- The sources text is taken as its lines, already split; the line splitting
  of Python file iteration is not modelled.
- A call of `update_json_snapshot_file` with `completed_keys` of `None`
  marks nothing, like an empty list, and is not a separate case.
- The dict is updated in place in the source; the model returns the new
  table. Aliasing of the dict between the caller and the callee is not
  captured.
- `Text.Lower`: lower-casing is ASCII only. A file name ending in a
  non-ASCII character that Python's `lower()` would map to `.md` is not
  modelled.
- The size limit is a parameter. The script's value is 5 MB
  (`Combine.MaxSizeBytes`, combine.py:8, 46), an exact integer.
- Sizes and counters are unbounded integers, as in Python.
- The separator's byte length is its character count, since it is ASCII.
- Output members are kept as documents rather than file names;
  `Combine.Names` gives the names the source records.
