# fib: a model of the code-bundling CLI

`fib` is a small command-line tool with two commands.

- `bundle` collects the source files under the working directory and writes them into one output file. It selects either every file whose absolute path does not contain the text `bin` or `debug` (a substring test, which also sees the working directory's own path) or every file with the extension of one language. Before the files it can write a note naming the tool's own executable and an author comment. Each file appears as a `// File: <path>` line, its text (optionally without blank lines) and a blank line. After writing, the handler sorts its file list by file name, or by extension and then file name.
- `create-rsp` asks for the six option values on the console. It asks again until the note answer is exactly `true` or `false`. It then writes them as one line of options to `response.rsp`.

The model treats the file system, the console and the platform as inputs:
- the tree of files that `Directory.GetFiles` returns, in traversal order;
- a map from path to text for the files `File.ReadAllText` can read;
- whether the output file and its directory exist;
- `Environment.NewLine` and the assembly location;
- the console input as a sequence of lines.

The modules are:
- `Languages`: the extension table.
- `EmptyLines`: blank-line removal.
- `Strings` and `Paths`: the .NET string and path operations used.
- `Ordering`: a lexicographic key order and a stable sort standing for `OrderBy`/`ThenBy`.
- `Bundling`: the `bundle` handler. `WriteBundle` is a method that writes to a `TextWriter` object line by line and is proved equal to the specification function `WriteResult`. `Bundle`, the whole handler, calls it and is proved equal to the specification function `BundleRun`. The lemmas state what `BundleRun` promises.
- `ResponseFile`: the `create-rsp` handler. It is a method over a `ConsoleInput` object whose position advances with each `ReadLine`, and is proved equal to `RspScript`.

The tool's help text for `--sort` offers the values `name` and `type` (fib/Program.cs:12). The handler, however, tests `sort?.ToLower() == "alphabetical"` (fib/Program.cs:124). The model follows the handler.

## Model

| member | source | states |
|---|---|---|
| Languages.ConvertLanguage | fib/Program.cs:151-179 | `csharp`, `javascript` and `asembler` become `cs`, `js` and `asn`; every other token comes back unchanged; no result is itself one of the three renamed names |
| Languages.ConvertLanguageIdempotent | fib/Program.cs:151-179 | converting an already converted token changes nothing |
| Languages.ConvertLanguageChanges | fib/Program.cs:151-179 | the table changes a token exactly when it is one of the three renamed names |
| EmptyLines.ContentLines | fib/Program.cs:148 | every kept piece has a non-white-space character and no `'\n'`, and every non-blank `'\n'`-piece of the input is kept |
| EmptyLines.RemoveEmptyLinesLines | fib/Program.cs:146-149 | `RemoveEmptyLines(content, newLine)`, the join of `ContentLines(content)` with the newline, models the source function: with `"\n"` as newline, splitting the result gives exactly the non-blank pieces of the input, in their order, none blank; no kept piece gives `""` |
| EmptyLines.RemoveEmptyLinesIdempotent | fib/Program.cs:148 | with `"\n"` as newline, removing empty lines twice equals removing them once |
| EmptyLines.TwoContentLines | fib/Program.cs:148 | two content lines around one `'\n'` are both kept, in order |
| EmptyLines.TwoLinesJoined | fib/Program.cs:148 | two content lines around one `'\n'` come out joined by the platform newline |
| EmptyLines.CrLfSecondPassDiffers | fib/Program.cs:148 | with `"\r\n"` as newline, `"a\nb"` becomes `"a\r\nb"`, and a second pass gives `"a\r\r\nb"`, so the operation is not idempotent there |
| EmptyLines.TwoLinesWithBlankLines | fib/Program.cs:148 | a blank line between two lines and a trailing newline both drop out of the kept pieces |
| EmptyLines.TwoLinesWithBlankKept | fib/Program.cs:148 | `x\n\ny\n` becomes `x\ny` |
| EmptyLines.BlankLineDropped | fib/Program.cs:146-149 | `"int x=1;\n\nint y=2;\n"` becomes `"int x=1;\nint y=2;"` |
| Strings.ContainsIffOccurs | fib/Program.cs:79 | `Contains` holds exactly when the text occurs at some position |
| Strings.Split | fib/Program.cs:148 | at least one piece, and no piece holds the separator |
| Strings.JoinSplit | fib/Program.cs:148 | joining the split pieces with the separator gives the input back |
| Strings.SplitJoin | fib/Program.cs:148 | splitting a join of separator-free pieces gives the pieces back |
| Strings.FilterBy | fib/Program.cs:79 | the result holds only kept elements of the input and every kept element of the input |
| Strings.FilterByAppend | fib/Program.cs:79 | filtering a concatenation is concatenating the filtered parts, so the relative order is kept |
| Strings.ContainsInPrefix | fib/Program.cs:79 | text that occurs in a prefix of a path occurs in the path |
| Strings.FilterByRejectsAll | fib/Program.cs:79 | a filter that rejects every element returns nothing |
| Strings.FilterByKeepsAll | fib/Program.cs:148 | a filter that rejects nothing returns its input |
| Paths.FileNameIsLastComponent | fib/Program.cs:126-130 | `FileName`, the model of `Path.GetFileName`, is the path's last component: a suffix without separators, preceded by a separator unless it is the whole path |
| Paths.NameExtension | fib/Program.cs:126 | `Extension(path)`, the model of `Path.GetExtension`, is `NameExtension(FileName(path))`; the extension is empty exactly when the name has no `.` or ends with one; otherwise it is the suffix from the last `.` on |
| Ordering.StrLeTotal | fib/Program.cs:126-130 | any two keys are comparable |
| Ordering.StrLeAntisymmetric | fib/Program.cs:126-130 | keys ordered both ways are equal |
| Ordering.StrLeTransitive | fib/Program.cs:126-130 | the key order is transitive |
| Ordering.PathLeTotal | fib/Program.cs:126-130 | the (extension, file name) order and the file-name order are total |
| Ordering.PathLeTransitive | fib/Program.cs:126-130 | both orders are transitive |
| Ordering.Insert | fib/Program.cs:126-130 | insertion adds exactly one occurrence of the element |
| Ordering.InsertSorted | fib/Program.cs:126-130 | insertion into a sorted sequence keeps it sorted |
| Ordering.OrderBy | fib/Program.cs:126-130 | the result is a permutation of the input and non-decreasing by the key |
| Ordering.OrderByKeepsTies | fib/Program.cs:130 | equal keys keep their arrival order: `b/x` before `a/x` stays so when sorting by file name |
| Bundling.Selection | fib/Program.cs:76-85 | in `all` mode (letter case ignored) exactly the paths containing neither `bin` nor `debug` are kept; otherwise exactly the paths whose extension is `.` + `ConvertLanguage(language)` |
| Bundling.SelectionKeepsOrder | fib/Program.cs:76-85 | selecting from two parts of the tree gives both selections, one after the other, so the traversal order is kept |
| Bundling.AllIsCaseInsensitive | fib/Program.cs:76 | `language.ToLower() == "all"` holds exactly for the three letters `a`, `l`, `l` in any letter case |
| Bundling.AllUnderBuildFolderSelectsNothing | fib/Program.cs:78-79 | the test sees whole absolute paths: when every file lies under a directory whose path contains `bin` or `debug`, `all` selects nothing |
| Bundling.RunUnderBuildFolderBundlesNothing | fib/Program.cs:76-90 | run with `all` from such a directory, the handler stops with no files, nothing read and nothing written |
| Bundling.SubstringExclusion | fib/Program.cs:79 | the test is on substrings: `src/bindings.cs` is excluded from `all` |
| Bundling.SectionsAppend | fib/Program.cs:104-114 | the sections of two consecutive runs of files are written one after the other |
| Bundling.FirstUnreadable | fib/Program.cs:104-106 | every file before the returned index is readable, and the file at the index, if any, is not |
| Bundling.SortFiles | fib/Program.cs:122-132 | the sorted list is a permutation of the selection, ordered by the key that `sort` chooses |
| Bundling.TextWriter.constructor | fib/Program.cs:93 | a new stream is empty and uses the platform newline |
| Bundling.TextWriter.WriteLine | fib/Program.cs:111-113 | the stream grows by the line and the newline |
| Bundling.WritePreamble | fib/Program.cs:95-103 | the stream grows by the note block, if asked for, then by the author block, if the author is not null or white space |
| Bundling.WriteBundle | fib/Program.cs:93-115 | the write loop produces `WriteResult`: the preamble, then one section per file in selection order, each file's text stripped of blank lines exactly when `removeEmptyLines` is set (`Bodies`), stopping at the first unreadable file with what was written so far |
| Bundling.Bundle | fib/Program.cs:68-133 | the handler produces `BundleRun`: the null, existing-output, empty-selection and missing-directory cases, the written bundle, and the sorted file list |
| Bundling.ExistingOutputAbortsFirst | fib/Program.cs:71-75 | an existing output stops the handler before any file is read or written |
| Bundling.EmptySelectionWritesNothing | fib/Program.cs:86-90 | an empty selection stops the handler with nothing read or written |
| Bundling.BundledReadsAll | fib/Program.cs:91-115 | a written bundle means every selected file was read, in selection order, and the bundle is the preamble followed by one section per selected file |
| Bundling.AllReadableBundles | fib/Program.cs:71-115 | a new output in an existing directory with every selected file readable is written as the preamble followed by every section |
| Bundling.SectionOrder | fib/Program.cs:104-114 | the k-th file's section sits between the sections of the files before it and those after it |
| Bundling.SortDoesNotAffectOutput | fib/Program.cs:122-132 | the sort option changes neither what is read nor what is written |
| Bundling.FilesEndSorted | fib/Program.cs:122-132 | after a bundle, or after the caught path error, `files` is a permutation of the selection ordered by the chosen key |
| Bundling.SingleFileRoundTrip | fib/Program.cs:104-114 | one file with no note, no author and lines kept is written as its path line, its exact text and a blank line, and the text between the two gives the file back |
| ResponseFile.ConsoleInput.constructor | fib/Program.cs:35 | the input starts at its first line |
| ResponseFile.ConsoleInput.ReadLine | fib/Program.cs:35 | returns `At(lines, position)`, the next line, and advances, or returns null at the end of the input and stays there |
| ResponseFile.NextBoolAnswer | fib/Program.cs:40-44 | the first line from `from` on that is exactly `true` or `false`, with every line before it rejected; none when no such line exists |
| ResponseFile.NextBoolAnswerSkips | fib/Program.cs:40-44 | a rejected answer is skipped and the search goes on at the next line |
| ResponseFile.ParseBoolPadded | fib/Program.cs:45 | `ParseBool`, the model of `bool.TryParse` into its out variable, ignores surrounding white space and NUL and the letter case |
| ResponseFile.ParseBoolOfAnswer | fib/Program.cs:45 | an answer the loop accepted parses to true exactly when it is `true` |
| ResponseFile.ParseBoolNull | fib/Program.cs:55 | a null answer parses to false |
| ResponseFile.TryParseBool | fib/Program.cs:55 | the parsed flag, and on an accepted answer exactly whether it is `true` |
| ResponseFile.WriteResponseFile | fib/Program.cs:58-64 | the file written is named `response.rsp`, and its text has no line break when no answer holds one |
| ResponseFile.RspContentOneLine | fib/Program.cs:58-63 | the response text, `--language`, `--output`, `--note`, `--sort`, `--remove-empty-lines`, `--author` each followed by its value (a null answer as `""`, a flag as `True`/`False`), is a single line whenever no answer holds a line break |
| ResponseFile.PromptForBool | fib/Program.cs:40-54 | an accepted current value is kept without reading; otherwise lines are read up to the first accepted one, and the loop never ends when none comes |
| ResponseFile.ReadAnswer | fib/Program.cs:47-49 | one `ReadLine` returns the answer at the line reached |
| ResponseFile.AskThroughNote | fib/Program.cs:34-44 | language and output are the first two lines; the note is the first accepted line after them, or the prompt never ends |
| ResponseFile.AskAfterNote | fib/Program.cs:46-57 | as written: sort, remove-empty-lines and author are the three lines after the note, and the remove-empty-lines answer is parsed without validation |
| ResponseFile.CreateRsp | fib/Program.cs:32-64 | the handler as written saves exactly `RspScript` of the input, or prompts forever |
| ResponseFile.EndlessIffNoNoteAnswer | fib/Program.cs:40-44 | the handler prompts forever exactly when no line from the note's on is `true` or `false` |
| ResponseFile.NoteIsAccepted | fib/Program.cs:40-45 | the note written comes from an accepted answer, read as written |
| ResponseFile.AgreeOnAcceptedAnswer | fib/Program.cs:49-55 | when the remove-empty-lines answer is accepted at once, the handler as written and the corrected one write the same file |
| ResponseFile.AsWrittenSkipsSecondPrompt | fib/Program.cs:50-55 | as written, the answers `cs, out, true, name, yes, true, me` give remove-empty-lines false and author `true` |
| ResponseFile.AskSortAndRemoveEmptyLines | fib/Program.cs:46-54 | corrected: the sort answer is the line after the note, and remove-empty-lines is the first accepted line after that |
| ResponseFile.AskAfterNoteRevalidated | fib/Program.cs:46-57 | corrected: the remove-empty-lines flag comes from an accepted answer and the author is the line after it |
| ResponseFile.AskAnswersRevalidated | fib/Program.cs:34-57 | corrected: the six answers are `RevalidatedAnswers` of the input |
| ResponseFile.CreateRspRevalidated | fib/Program.cs:32-64 | the corrected handler saves exactly `RspScriptRevalidated` of the input, or prompts forever |
| ResponseFile.RevalidatedFlagsAccepted | fib/Program.cs:40-55 | corrected: both flags come from accepted answers, the second after the first |
| ResponseFile.RevalidatedPromptsAgain | fib/Program.cs:50-55 | corrected: the same answers give remove-empty-lines true and author `me` |

## Left out

- The System.CommandLine wiring: options, aliases, commands and `InvokeAsync` (fib/Program.cs:8-30, 135-138). A handler's arguments are taken as given `Options`.
- Console output: prompts and status messages are not modelled.
- Directory traversal: `Directory.GetFiles` is an input sequence.
- Windows glob matching: the pattern `*.<ext>` is read as "the path's extension equals `.<ext>`". Its quirks with extensions of three characters are not modelled.
- `output.FullName`: the output path is used as given.
- Letter case: `ToLower` folds only ASCII capitals; culture-specific case mappings are not modelled.
- Sort order: `OrderBy` on string keys compares them by the current culture (`Comparer<string>.Default`). The model compares keys lexicographically by Unicode scalar value instead; culture-sensitive collation is not modelled. This order also differs from UTF-16 ordinal order when a character above U+FFFF meets one in U+E000..U+FFFF.
- Ordering.OrderBy: the contract states a sorted permutation; stability, which LINQ `OrderBy` documents and the insertion sort has, is shown only by the example `OrderByKeepsTies`. Nothing observable depends on it, since `files` is not used after the sort.
- Exceptions: a `null` output or language is the single outcome `NullOption`. An unreadable selected file is `Interrupted`: it carries the text written before it, and the handler's sort is not reached. Any other I/O failure is not modelled.
- Output directory: a missing directory is the caught `DirectoryNotFoundException` (`PathInvalid`); the handler then goes on to sort.
- Paths: only `/` and `\` act as directory separators.
- Disk effects: the file the write produces is returned as text. Replacing an existing `response.rsp` is not modelled.
- Whether `File.WriteAllText` succeeds is not modelled.
- ResponseFile.CreateRsp: a handler that never stops asking is reported as the single outcome `EndlessPrompt`. The prompts it would keep printing are not modelled.
- ResponseFile.ParseBool: white space means the `Char.IsWhiteSpace` set plus NUL, as trimmed by `bool.TryParse`; the letter case of `true` is folded only for ASCII.
- `GetSourceCodeReference` (fib/Program.cs:140-144): the assembly location is a parameter of `Platform`.

## Findings

| source | as written | input that shows it | evidently intended | confidence | as-written member | corrected member |
|---|---|---|---|---|---|---|
| fib/Program.cs:50-54 | the second re-prompt loop tests `noteValue`, which the first loop already accepted, so it never runs; the remove-empty-lines answer is never validated | console answers `cs`, `out`, `true`, `name`, `yes`, `true`, `me`: `yes` is parsed as false without a new prompt, and the retry `true` becomes the author | re-prompt until `removeEmptyLinesValue` is `true` or `false`, as the prompt at line 48 asks | not executed | ResponseFile.AsWrittenSkipsSecondPrompt | ResponseFile.RevalidatedPromptsAgain |
