/** The handler of the `bundle` command: select the files, guard against an
    existing output and an empty selection, write the bundle step by step,
    then sort the file list (after the writing is done). */
module Bundling {
  import opened Optional
  import opened Strings
  import opened Paths
  import opened Languages
  import opened EmptyLines
  import opened Ordering

  /** The six options of `bundle`; a string or file option that was not given is null. */
  datatype Options = Options(
    output: Option<string>,
    language: Option<string>,
    note: bool,
    sort: Option<string>,
    removeEmptyLines: bool,
    author: Option<string>)

  /** What the handler observes of the file system. */
  datatype Disk = Disk(
    tree: seq<string>,              // the absolute path of every file under the working directory, in traversal order
    contents: map<string, string>,  // the text of each file File.ReadAllText can read
    outputExists: bool,             // output.Exists
    outputDirectoryExists: bool)    // whether File.CreateText finds the output's directory

  /** Environment.NewLine and the location of the running assembly. */
  datatype Platform = Platform(newLine: string, toolLocation: string)

  datatype Outcome =
    | NullOption                               // a null output or language is dereferenced
    | OutputExists                             // refused: the output already exists
    | NoFiles                                  // nothing selected, nothing written
    | PathInvalid                              // DirectoryNotFoundException, caught
    | Bundled(path: string, text: string)      // the output file holds `text`
    | Interrupted(path: string, text: string)  // a selected file was unreadable: the exception escapes, `text` is flushed

  /** An outcome, the files whose text the handler asked for (in order), and
      the `files` array as the handler leaves it. */
  datatype Run = Run(outcome: Outcome, read: seq<string>, files: seq<string>)

  // ---------------------------------------------------------------- selection

  /** The crude build-folder exclusion of `all`: a case-sensitive substring
      test on the whole path, not on path segments. */
  predicate IsOutsideBuildFolders(path: string) {
    !Contains(path, "bin") && !Contains(path, "debug")
  }

  function OutsideBuildFolders(paths: seq<string>): seq<string> {
    FilterBy(paths, IsOutsideBuildFolders)
  }

  /** `all` is recognised in any letter case and nothing else is. */
  lemma AllIsCaseInsensitive(language: string)
    ensures IsAllLanguages(language) <==>
      |language| == 3 && language[0] in "aA" && language[1] in "lL" && language[2] in "lL"
  {
    if IsAllLanguages(language) {
      assert ToLower(language)[0] == 'a' && ToLower(language)[1] == 'l' && ToLower(language)[2] == 'l';
    }
  }

  /** The search pattern `*.<ext>`, read as an extension test. */
  predicate HasExtension(path: string, ext: string) {
    Extension(path) == "." + ext
  }

  function WithExtension(paths: seq<string>, ext: string): seq<string> {
    FilterBy(paths, path => HasExtension(path, ext))
  }

  /** `language.ToLower() == "all"` */
  predicate IsAllLanguages(language: string) {
    ToLower(language) == "all"
  }

  /** The `files` array before the guard on its length. */
  function Selection(language: string, tree: seq<string>): (files: seq<string>)
    ensures IsAllLanguages(language) ==>
      forall path :: path in files <==> path in tree && IsOutsideBuildFolders(path)
    ensures !IsAllLanguages(language) ==>
      forall path :: path in files <==> path in tree && HasExtension(path, ConvertLanguage(language))
  {
    if IsAllLanguages(language) then OutsideBuildFolders(tree)
    else WithExtension(tree, ConvertLanguage(language))
  }

  /** Selection keeps the traversal order: selecting from two parts of the
      tree gives the two selections one after the other. */
  lemma SelectionKeepsOrder(language: string, front: seq<string>, back: seq<string>)
    ensures Selection(language, front + back) == Selection(language, front) + Selection(language, back)
  {
    if IsAllLanguages(language) {
      FilterByAppend(front, back, IsOutsideBuildFolders);
    } else {
      var ext := ConvertLanguage(language);
      FilterByAppend(front, back, path => HasExtension(path, ext));
    }
  }

  /** The exclusion is by substring: a source file whose name merely contains
      "bin" is left out of `all`. */
  lemma SubstringExclusion()
    ensures !IsOutsideBuildFolders("src/bindings.cs")
  {
    assert StartsWith("src/bindings.cs"[4..], "bin");
    ContainsIffOccurs("src/bindings.cs", "bin");
  }

  /** The test sees the whole absolute path, the working directory's own
      part included: under a directory whose path contains "bin" or "debug",
      `all` selects nothing. */
  lemma AllUnderBuildFolderSelectsNothing(language: string, directory: string, tree: seq<string>)
    requires IsAllLanguages(language)
    requires Contains(directory, "bin") || Contains(directory, "debug")
    requires forall i :: 0 <= i < |tree| ==> StartsWith(tree[i], directory)
    ensures Selection(language, tree) == []
  {
    forall i | 0 <= i < |tree| ensures !IsOutsideBuildFolders(tree[i]) {
      if Contains(directory, "bin") {
        ContainsInPrefix(tree[i], directory, "bin");
      } else {
        ContainsInPrefix(tree[i], directory, "debug");
      }
    }
    FilterByRejectsAll(tree, IsOutsideBuildFolders);
  }

  // ---------------------------------------------------------------- layout

  /** GetSourceCodeReference */
  function SourceCodeReference(platform: Platform): string {
    "File: " + platform.toolLocation
  }

  /** The interpolated note: two comment lines naming the tool's own executable. */
  function NoteLine(platform: Platform): string {
    "// Source code reference: " + platform.newLine + "// " + SourceCodeReference(platform) + platform.newLine
  }

  /** The interpolated author comment, which carries its own newline. */
  function AuthorLine(author: string, newLine: string): string {
    "// Author: " + author + newLine
  }

  function FileLine(path: string): string {
    "// File: " + path
  }

  /** What precedes the first file: the note if asked for, then the author
      block if the author is not null or white space; each ends with a blank
      line. */
  function Preamble(opts: Options, platform: Platform): string {
    (if opts.note then NoteLine(platform) + platform.newLine else "")
      + (if !IsNullOrWhiteSpace(opts.author) then AuthorLine(opts.author.value, platform.newLine) + platform.newLine else "")
  }

  /** A file's text as it goes into the bundle. */
  function BundledContent(content: string, removeEmptyLines: bool, newLine: string): string {
    if removeEmptyLines then RemoveEmptyLines(content, newLine) else content
  }

  /** What each readable file contributes to the bundle, keyed by its path. */
  function Bodies(contents: map<string, string>, removeEmptyLines: bool, newLine: string): map<string, string> {
    map path | path in contents :: BundledContent(contents[path], removeEmptyLines, newLine)
  }

  /** The readable files are exactly the files that contribute a body. */
  lemma BodiesOfContents(contents: map<string, string>, removeEmptyLines: bool, newLine: string)
    ensures var bodies := Bodies(contents, removeEmptyLines, newLine);
      forall path :: path in contents <==> path in bodies
  {
  }

  /** One file of the bundle: its path line, its text, a blank line. */
  function FileSection(path: string, body: string, newLine: string): string {
    FileLine(path) + newLine + body + newLine + newLine
  }

  predicate AllReadable(files: seq<string>, contents: map<string, string>) {
    forall i :: 0 <= i < |files| ==> files[i] in contents
  }

  /** The sections of `files`, in the order of `files`. */
  function Sections(files: seq<string>, bodies: map<string, string>, newLine: string): string
    requires AllReadable(files, bodies)
    decreases |files|
  {
    if files == [] then ""
    else
      var last := files[|files| - 1];
      Sections(files[..|files| - 1], bodies, newLine) + FileSection(last, bodies[last], newLine)
  }

  lemma AllReadableParts(front: seq<string>, back: seq<string>, contents: map<string, string>)
    requires AllReadable(front + back, contents)
    ensures AllReadable(front, contents) && AllReadable(back, contents)
  {
    var all := front + back;
    forall i | 0 <= i < |front| ensures front[i] in contents {
      assert front[i] == all[i];
    }
    forall i | 0 <= i < |back| ensures back[i] in contents {
      assert back[i] == all[|front| + i];
    }
  }

  /** Sections of consecutive parts are written one after the other. */
  lemma {:induction false} SectionsAppend(front: seq<string>, back: seq<string>, bodies: map<string, string>, newLine: string)
    requires AllReadable(front + back, bodies)
    ensures AllReadable(front, bodies) && AllReadable(back, bodies)
    ensures Sections(front + back, bodies, newLine) == Sections(front, bodies, newLine) + Sections(back, bodies, newLine)
    decreases |back|
  {
    AllReadableParts(front, back, bodies);
    if back == [] {
      assert front + back == front;
    } else {
      var all := front + back;
      var init, last := back[..|back| - 1], back[|back| - 1];
      assert all[..|all| - 1] == front + init;
      assert all[|all| - 1] == last;
      AllReadableParts(front + init, [last], bodies);
      SectionsAppend(front, init, bodies, newLine);
      var section := FileSection(last, bodies[last], newLine);
      assert Sections(all, bodies, newLine) == Sections(front + init, bodies, newLine) + section;
      assert Sections(back, bodies, newLine) == Sections(init, bodies, newLine) + section;
    }
  }

  /** The index of the first selected file that cannot be read, or |files|. */
  function FirstUnreadable(files: seq<string>, contents: map<string, string>): (k: nat)
    ensures k <= |files|
    ensures AllReadable(files[..k], contents)
    ensures k < |files| ==> files[k] !in contents
    decreases |files|
  {
    if files == [] || files[0] !in contents then 0
    else
      var k := FirstUnreadable(files[1..], contents);
      assert files[..k + 1] == [files[0]] + files[1..][..k];
      k + 1
  }

  /** A prefix of readable files grows by one readable file. */
  lemma ReadableStep(files: seq<string>, i: nat, contents: map<string, string>)
    requires i < |files| && AllReadable(files[..i], contents) && files[i] in contents
    ensures AllReadable(files[..i + 1], contents)
  {
    var prefix := files[..i + 1];
    forall j | 0 <= j < |prefix| ensures prefix[j] in contents {
      if j < i {
        assert prefix[j] == files[..i][j];
      }
    }
  }

  /** Writing one more file appends its section. */
  lemma SectionsStep(files: seq<string>, i: nat, bodies: map<string, string>, newLine: string)
    requires i < |files| && AllReadable(files[..i], bodies) && files[i] in bodies
    ensures AllReadable(files[..i + 1], bodies)
    ensures Sections(files[..i + 1], bodies, newLine)
      == Sections(files[..i], bodies, newLine) + FileSection(files[i], bodies[files[i]], newLine)
  {
    ReadableStep(files, i, bodies);
    assert files[..i + 1][..i] == files[..i];
  }

  /** The three WriteLine calls for one file append that file's section. */
  lemma SectionWritten(before: string, path: string, body: string, newLine: string)
    ensures before + FileLine(path) + newLine + body + newLine + "" + newLine
      == before + FileSection(path, body, newLine)
  {
    assert before + FileLine(path) + newLine + body + newLine + "" == before + FileLine(path) + newLine + body + newLine;
  }

  lemma AppendAssociative(a: string, b: string, c: string)
    ensures a + (b + c) == a + b + c
  {
  }

  /** A readable prefix followed by an unreadable file, or by nothing,
      ends where FirstUnreadable says. */
  lemma {:induction false} FirstUnreadableIs(files: seq<string>, i: nat, contents: map<string, string>)
    requires i <= |files| && AllReadable(files[..i], contents)
    requires i < |files| ==> files[i] !in contents
    ensures FirstUnreadable(files, contents) == i
    decreases i
  {
    if i > 0 {
      assert files[0] == files[..i][0];
      assert files[1..][..i - 1] == files[..i][1..];
      FirstUnreadableIs(files[1..], i - 1, contents);
    }
  }

  // ---------------------------------------------------------------- sort

  /** `sort?.ToLower() == "alphabetical"`: sort by extension, then file name. */
  predicate IsAlphabetical(sort: Option<string>) {
    sort.Some? && ToLower(sort.value) == "alphabetical"
  }

  /** The post-write sort, done only when more than one file is selected. */
  function SortFiles(files: seq<string>, sort: Option<string>): (sorted: seq<string>)
    ensures multiset(sorted) == multiset(files)
    ensures Sorted(sorted, IsAlphabetical(sort))
  {
    if |files| > 1 then OrderBy(files, IsAlphabetical(sort)) else files
  }

  // ---------------------------------------------------------------- handler

  /** The `using` block: the note, the author, then one section per file
      until every file is written or one cannot be read. `files` is returned
      as it came in. */
  function WriteResult(output: string, opts: Options, platform: Platform, files: seq<string>, contents: map<string, string>): Run {
    var k := FirstUnreadable(files, contents);
    var text := Preamble(opts, platform)
      + Sections(files[..k], Bodies(contents, opts.removeEmptyLines, platform.newLine), platform.newLine);
    if k < |files| then Run(Interrupted(output, text), files[..k + 1], files)
    else Run(Bundled(output, text), files, files)
  }

  /** The whole handler, as a function of its options and what it observes. */
  function BundleRun(opts: Options, disk: Disk, platform: Platform): Run {
    if opts.output.None? then Run(NullOption, [], [])
    else if disk.outputExists then Run(OutputExists, [], [])
    else if opts.language.None? then Run(NullOption, [], [])
    else
      var files := Selection(opts.language.value, disk.tree);
      if files == [] then Run(NoFiles, [], files)
      else if !disk.outputDirectoryExists then Run(PathInvalid, [], SortFiles(files, opts.sort))
      else
        var written := WriteResult(opts.output.value, opts, platform, files, disk.contents);
        if written.outcome.Interrupted? then written
        else written.(files := SortFiles(files, opts.sort))
  }

  /** The stream File.CreateText opens; `text` is everything written to it. */
  class TextWriter {
    const newLine: string
    var text: string

    constructor (newLine: string)
      ensures this.newLine == newLine && text == ""
    {
      this.newLine := newLine;
      text := "";
    }

    /** StreamWriter.WriteLine: the line, then the writer's newline. */
    method WriteLine(line: string)
      modifies this
      ensures text == old(text) + line + newLine
    {
      text := text + line + newLine;
    }
  }

  /** The note, when asked for, then the author, when not null or white space. */
  method WritePreamble(outputFile: TextWriter, opts: Options, platform: Platform)
    requires outputFile.newLine == platform.newLine
    modifies outputFile
    ensures outputFile.text == old(outputFile.text) + Preamble(opts, platform)
  {
    ghost var start := outputFile.text;
    if opts.note {
      outputFile.WriteLine(NoteLine(platform));
    }
    ghost var afterNote := outputFile.text;
    assert afterNote == start + if opts.note then NoteLine(platform) + platform.newLine else "";
    if !IsNullOrWhiteSpace(opts.author) {
      outputFile.WriteLine(AuthorLine(opts.author.value, platform.newLine));
    }
    AppendAssociative(start, if opts.note then NoteLine(platform) + platform.newLine else "",
      if !IsNullOrWhiteSpace(opts.author) then AuthorLine(opts.author.value, platform.newLine) + platform.newLine else "");
  }

  /** Writes the bundle to a new stream, as the `using` block does. */
  method WriteBundle(output: string, opts: Options, platform: Platform, files: seq<string>, contents: map<string, string>)
    returns (run: Run)
    ensures run == WriteResult(output, opts, platform, files, contents)
  {
    var newLine := platform.newLine;
    var read: seq<string> := [];
    var outputFile := new TextWriter(newLine);
    WritePreamble(outputFile, opts, platform);
    ghost var preamble := outputFile.text;
    assert preamble == Preamble(opts, platform);
    ghost var bodies := Bodies(contents, opts.removeEmptyLines, newLine);
    BodiesOfContents(contents, opts.removeEmptyLines, newLine);
    var i := 0;
    while i < |files|
      invariant 0 <= i <= |files|
      invariant outputFile.newLine == newLine
      invariant AllReadable(files[..i], contents) && AllReadable(files[..i], bodies)
      invariant read == files[..i]
      invariant outputFile.text == preamble + Sections(files[..i], bodies, newLine)
    {
      var file := files[i];
      assert files[..i + 1] == files[..i] + [file];
      read := read + [file];
      if file !in contents {
        FirstUnreadableIs(files, i, contents);
        return Run(Interrupted(output, outputFile.text), read, files);
      }
      ghost var before := outputFile.text;
      var fileContent := contents[file];
      if opts.removeEmptyLines {
        fileContent := RemoveEmptyLines(fileContent, newLine);
      }
      assert fileContent == bodies[file];
      outputFile.WriteLine(FileLine(file));
      outputFile.WriteLine(fileContent);
      outputFile.WriteLine("");
      SectionWritten(before, file, fileContent, newLine);
      ReadableStep(files, i, contents);
      SectionsStep(files, i, bodies, newLine);
      AppendAssociative(preamble, Sections(files[..i], bodies, newLine), FileSection(file, fileContent, newLine));
      assert outputFile.text == preamble + Sections(files[..i + 1], bodies, newLine);
      i := i + 1;
    }
    assert files[..i] == files;
    FirstUnreadableIs(files, i, contents);
    return Run(Bundled(output, outputFile.text), read, files);
  }

  method Bundle(opts: Options, disk: Disk, platform: Platform) returns (run: Run)
    ensures run == BundleRun(opts, disk, platform)
  {
    var files: seq<string> := [];
    if opts.output.None? {
      return Run(NullOption, [], files);
    }
    if disk.outputExists {
      return Run(OutputExists, [], files);
    }
    if opts.language.None? {
      return Run(NullOption, [], files);
    }
    var language := opts.language.value;
    if ToLower(language) == "all" {
      files := disk.tree;
      files := OutsideBuildFolders(files);
    } else {
      files := WithExtension(disk.tree, ConvertLanguage(language));
    }
    assert files == Selection(language, disk.tree);
    if |files| == 0 {
      return Run(NoFiles, [], files);
    }
    var outcome: Outcome;
    var read: seq<string> := [];
    if !disk.outputDirectoryExists {
      outcome := PathInvalid;
    } else {
      run := WriteBundle(opts.output.value, opts, platform, files, disk.contents);
      if run.outcome.Interrupted? {
        return run;
      }
      outcome, read := run.outcome, run.read;
    }
    if |files| > 1 {
      if IsAlphabetical(opts.sort) {
        files := OrderBy(files, true);
      } else {
        files := OrderBy(files, false);
      }
    }
    return Run(outcome, read, files);
  }

  // ---------------------------------------------------------------- properties

  /** An existing output stops the handler before any file is read or written. */
  lemma ExistingOutputAbortsFirst(opts: Options, disk: Disk, platform: Platform)
    requires opts.output.Some? && disk.outputExists
    ensures BundleRun(opts, disk, platform) == Run(OutputExists, [], [])
  {
  }

  /** An empty selection stops the handler with nothing read and nothing written. */
  lemma EmptySelectionWritesNothing(opts: Options, disk: Disk, platform: Platform)
    requires opts.output.Some? && !disk.outputExists && opts.language.Some?
    requires Selection(opts.language.value, disk.tree) == []
    ensures BundleRun(opts, disk, platform) == Run(NoFiles, [], [])
  {
  }

  /** Run from such a directory, `bundle --language all` reports no files. */
  lemma RunUnderBuildFolderBundlesNothing(opts: Options, disk: Disk, platform: Platform, directory: string)
    requires opts.output.Some? && !disk.outputExists && opts.language.Some? && IsAllLanguages(opts.language.value)
    requires Contains(directory, "bin") || Contains(directory, "debug")
    requires forall i :: 0 <= i < |disk.tree| ==> StartsWith(disk.tree[i], directory)
    ensures BundleRun(opts, disk, platform) == Run(NoFiles, [], [])
  {
    AllUnderBuildFolderSelectsNothing(opts.language.value, directory, disk.tree);
  }

  /** A bundle is written only when every selected file was read, in
      selection order: the bundle is the preamble and then one section per
      selected file. */
  lemma BundledReadsAll(opts: Options, disk: Disk, platform: Platform)
    requires BundleRun(opts, disk, platform).outcome.Bundled?
    ensures opts.language.Some?
    ensures var files := Selection(opts.language.value, disk.tree);
      var bodies := Bodies(disk.contents, opts.removeEmptyLines, platform.newLine);
      && BundleRun(opts, disk, platform).read == files
      && AllReadable(files, disk.contents)
      && AllReadable(files, bodies)
      && BundleRun(opts, disk, platform).outcome.text == Preamble(opts, platform) + Sections(files, bodies, platform.newLine)
  {
    var files := Selection(opts.language.value, disk.tree);
    assert FirstUnreadable(files, disk.contents) == |files|;
    assert files[..|files|] == files;
  }

  /** Conversely, when the output is new, its directory exists and every
      selected file can be read, the handler writes the whole bundle. */
  lemma AllReadableBundles(opts: Options, disk: Disk, platform: Platform)
    requires opts.output.Some? && !disk.outputExists && disk.outputDirectoryExists && opts.language.Some?
    requires var files := Selection(opts.language.value, disk.tree);
      files != [] && AllReadable(files, disk.contents)
    ensures var files := Selection(opts.language.value, disk.tree);
      var bodies := Bodies(disk.contents, opts.removeEmptyLines, platform.newLine);
      && AllReadable(files, bodies)
      && BundleRun(opts, disk, platform).outcome
        == Bundled(opts.output.value, Preamble(opts, platform) + Sections(files, bodies, platform.newLine))
  {
    var files := Selection(opts.language.value, disk.tree);
    assert files[..|files|] == files;
    FirstUnreadableIs(files, |files|, disk.contents);
  }

  /** The k-th file's section comes right after the sections of the files
      before it and right before those of the files after it. */
  lemma SectionOrder(files: seq<string>, bodies: map<string, string>, newLine: string, k: nat)
    requires AllReadable(files, bodies) && k < |files|
    ensures AllReadable(files[..k], bodies) && AllReadable(files[k + 1..], bodies)
    ensures Sections(files, bodies, newLine)
      == Sections(files[..k], bodies, newLine)
        + FileSection(files[k], bodies[files[k]], newLine)
        + Sections(files[k + 1..], bodies, newLine)
  {
    assert files == files[..k + 1] + files[k + 1..];
    SectionsAppend(files[..k + 1], files[k + 1..], bodies, newLine);
    SectionsStep(files, k, bodies, newLine);
  }

  /** The sort option cannot change what is read or written. */
  lemma SortDoesNotAffectOutput(opts: Options, disk: Disk, platform: Platform, sort: Option<string>)
    ensures BundleRun(opts.(sort := sort), disk, platform).outcome == BundleRun(opts, disk, platform).outcome
    ensures BundleRun(opts.(sort := sort), disk, platform).read == BundleRun(opts, disk, platform).read
  {
    var resorted := opts.(sort := sort);
    if opts.output.Some? && !disk.outputExists && opts.language.Some? && disk.outputDirectoryExists {
      var files := Selection(opts.language.value, disk.tree);
      assert Preamble(resorted, platform) == Preamble(opts, platform);
      assert WriteResult(opts.output.value, resorted, platform, files, disk.contents)
        == WriteResult(opts.output.value, opts, platform, files, disk.contents);
    }
  }

  /** After the write, `files` is a permutation of the selection ordered by
      the sort key. */
  lemma FilesEndSorted(opts: Options, disk: Disk, platform: Platform)
    requires BundleRun(opts, disk, platform).outcome.Bundled? || BundleRun(opts, disk, platform).outcome.PathInvalid?
    ensures opts.language.Some?
    ensures var run := BundleRun(opts, disk, platform);
      && multiset(run.files) == multiset(Selection(opts.language.value, disk.tree))
      && Sorted(run.files, IsAlphabetical(opts.sort))
  {
  }

  /** One file, no note, no author, lines kept: the bundle is the path line,
      the file's exact text and a blank line, so the text between the path
      line and the final blank line is the file's text. */
  lemma SingleFileRoundTrip(opts: Options, disk: Disk, platform: Platform, path: string)
    requires opts.output.Some? && !disk.outputExists && disk.outputDirectoryExists
    requires opts.language.Some? && Selection(opts.language.value, disk.tree) == [path]
    requires path in disk.contents
    requires !opts.note && IsNullOrWhiteSpace(opts.author) && !opts.removeEmptyLines
    ensures var nl := platform.newLine;
      var text := "// File: " + path + nl + disk.contents[path] + nl + nl;
      && BundleRun(opts, disk, platform).outcome == Bundled(opts.output.value, text)
      && text[|"// File: " + path + nl|..|text| - 2 * |nl|] == disk.contents[path]
  {
    var files, nl, content := [path], platform.newLine, disk.contents[path];
    var bodies := Bodies(disk.contents, opts.removeEmptyLines, nl);
    AllReadableBundles(opts, disk, platform);
    assert files[..0] == [] && files[..1] == files;
    SectionsStep(files, 0, bodies, nl);
    assert Sections(files, bodies, nl) == FileSection(path, content, nl);
    assert Preamble(opts, platform) == "";
    MiddleOfSection(FileLine(path) + nl, content, nl);
  }

  /** The text between a prefix and two trailing newlines. */
  lemma MiddleOfSection(head: string, body: string, newLine: string)
    ensures var text := head + body + newLine + newLine;
      text[|head|..|text| - 2 * |newLine|] == body
  {
    var text := head + body + newLine + newLine;
    assert text == head + body + (newLine + newLine);
  }
}
