/** RemoveEmptyLines of the bundle command: split on '\n', keep the pieces
    that are not null or white space, join them with the platform newline. */
module EmptyLines {
  import opened Strings

  /** A '\n'-piece that survives: one holding a non-white-space character. */
  predicate IsContentLine(line: string) {
    !IsBlank(line)
  }

  /** The '\n'-pieces of `content` that RemoveEmptyLines keeps, in order. */
  function ContentLines(content: string): (lines: seq<string>)
    ensures forall line :: line in lines ==> !IsBlank(line) && '\n' !in line
    ensures forall line :: line in Split(content, '\n') && !IsBlank(line) ==> line in lines
  {
    var pieces := Split(content, '\n');
    assert forall line :: line in pieces ==> '\n' !in line;
    FilterBy(pieces, IsContentLine)
  }

  function RemoveEmptyLines(content: string, newLine: string): string {
    Join(ContentLines(content), newLine)
  }

  /** With "\n" as the newline, the lines of the result are exactly the kept
      pieces of the input, in their order, and none of them is blank; when no
      piece is kept the result is the empty string. */
  lemma RemoveEmptyLinesLines(content: string)
    ensures ContentLines(content) == [] ==> RemoveEmptyLines(content, "\n") == ""
    ensures ContentLines(content) != [] ==>
      Split(RemoveEmptyLines(content, "\n"), '\n') == ContentLines(content)
    ensures forall line :: line in ContentLines(content) ==> !IsBlank(line)
  {
    var lines := ContentLines(content);
    if lines != [] {
      SplitJoin(lines, '\n');
    }
  }

  /** With "\n" as the newline, removing empty lines a second time changes nothing. */
  lemma RemoveEmptyLinesIdempotent(content: string)
    ensures RemoveEmptyLines(RemoveEmptyLines(content, "\n"), "\n") == RemoveEmptyLines(content, "\n")
  {
    var lines := ContentLines(content);
    var once := RemoveEmptyLines(content, "\n");
    if lines == [] {
      assert once == "";
      assert Split("", '\n') == [""];
      assert FilterBy([""], IsContentLine) == [];
    } else {
      SplitJoin(lines, '\n');
      assert Split(once, '\n') == lines;
      FilterByKeepsAll(lines, IsContentLine);
    }
  }

  /** Two content lines separated by one '\n' are both kept. */
  lemma {:induction false} TwoContentLines(x: string, y: string)
    requires '\n' !in x && '\n' !in y
    requires IsContentLine(x) && IsContentLine(y)
    ensures ContentLines(x + "\n" + y) == [x, y]
  {
    SplitWithoutSeparator(y, '\n');
    SplitAfterPiece(x, '\n', y);
    assert x + "\n" + y == x + ['\n'] + y;
    FilterByKeepsAll([x, y], IsContentLine);
  }

  lemma JoinTwo(x: string, y: string, separator: string)
    ensures Join([x, y], separator) == x + separator + y
  {
    assert [x, y][1..] == [y];
  }

  /** Two content lines separated by '\n' come out separated by the newline. */
  lemma TwoLinesJoined(x: string, y: string, newLine: string)
    requires '\n' !in x && '\n' !in y
    requires IsContentLine(x) && IsContentLine(y)
    ensures RemoveEmptyLines(x + "\n" + y, newLine) == x + newLine + y
  {
    TwoContentLines(x, y);
    JoinTwo(x, y, newLine);
  }

  lemma CrLfLiterals()
    ensures IsContentLine("a") && IsContentLine("a\r") && IsContentLine("b")
    ensures '\n' !in "a" && '\n' !in "a\r" && '\n' !in "b"
    ensures "a" + "\n" + "b" == "a\nb"
    ensures "a" + "\r\n" + "b" == "a\r\nb"
    ensures "a\r" + "\n" + "b" == "a\r\nb"
    ensures "a\r" + "\r\n" + "b" == "a\r\r\nb"
  {
    assert "a"[0] == 'a' && "a\r"[0] == 'a' && "b"[0] == 'b';
  }

  /** With "\r\n" as the newline the first pass turns "a\nb" into
      "a\r\nb"; a second pass splits that after the '\r' and adds another. */
  lemma CrLfSecondPassDiffers()
    ensures RemoveEmptyLines("a\nb", "\r\n") == "a\r\nb"
    ensures RemoveEmptyLines(RemoveEmptyLines("a\nb", "\r\n"), "\r\n") == "a\r\r\nb"
  {
    CrLfLiterals();
    TwoLinesJoined("a", "b", "\r\n");
    TwoLinesJoined("a\r", "b", "\r\n");
  }

  /** Two lines with a blank line between them and a trailing newline. */
  lemma {:induction false} TwoLinesWithBlank(x: string, y: string)
    requires '\n' !in x && '\n' !in y
    ensures Split(x + "\n\n" + y + "\n", '\n') == [x, "", y, ""]
  {
    SplitWithoutSeparator("", '\n');
    SplitAfterPiece(y, '\n', "");
    assert y + "\n" == y + ['\n'] + "";
    SplitAfterPiece("", '\n', y + "\n");
    assert "\n" + y + "\n" == "" + ['\n'] + (y + "\n");
    SplitAfterPiece(x, '\n', "\n" + y + "\n");
    assert x + "\n\n" + y + "\n" == x + ['\n'] + ("\n" + y + "\n");
  }

  /** A content line followed by an empty piece keeps only the line. */
  lemma LineThenEmpty(x: string)
    requires IsContentLine(x)
    ensures FilterBy([x, ""], IsContentLine) == [x]
  {
    assert !IsContentLine("");
    FilterByAppend([x], [""], IsContentLine);
    FilterBySingleton(x, IsContentLine);
    FilterBySingleton("", IsContentLine);
    assert [x, ""] == [x] + [""];
  }

  lemma {:induction false} TwoLinesWithBlankLines(x: string, y: string)
    requires '\n' !in x && '\n' !in y
    requires IsContentLine(x) && IsContentLine(y)
    ensures ContentLines(x + "\n\n" + y + "\n") == [x, y]
  {
    TwoLinesWithBlank(x, y);
    FilterByAppend([x, ""], [y, ""], IsContentLine);
    LineThenEmpty(x);
    LineThenEmpty(y);
    assert [x, "", y, ""] == [x, ""] + [y, ""];
  }

  lemma {:induction false} TwoLinesWithBlankKept(x: string, y: string)
    requires '\n' !in x && '\n' !in y
    requires IsContentLine(x) && IsContentLine(y)
    ensures RemoveEmptyLines(x + "\n\n" + y + "\n", "\n") == x + "\n" + y
  {
    TwoLinesWithBlankLines(x, y);
    JoinTwo(x, y, "\n");
  }

  lemma CodeLineFacts()
    ensures IsContentLine("int x=1;") && IsContentLine("int y=2;")
    ensures "int x=1;" + "\n\n" + "int y=2;" + "\n" == "int x=1;\n\nint y=2;\n"
    ensures "int x=1;" + "\n" + "int y=2;" == "int x=1;\nint y=2;"
  {
    assert "int x=1;"[0] == 'i';
    assert "int y=2;"[0] == 'i';
  }

  /** A blank line between two lines of code is dropped; the trailing newline
      leaves an empty last piece, which is dropped too. */
  lemma BlankLineDropped()
    ensures RemoveEmptyLines("int x=1;\n\nint y=2;\n", "\n") == "int x=1;\nint y=2;"
  {
    CodeLineFacts();
    TwoLinesWithBlankKept("int x=1;", "int y=2;");
  }
}
