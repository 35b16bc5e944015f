/** The create-rsp command: six answers read from the console, two of them
    re-prompted until they are "true" or "false", written as one line of
    bundle options to "response.rsp". */
module ResponseFile {
  import opened Optional
  import opened Strings

  // ---------------------------------------------------------------- console

  /** Console.ReadLine on line `i` of the input: null once the input is
      exhausted. */
  function At(lines: seq<string>, i: nat): Option<string> {
    if i < |lines| then Some(lines[i]) else None
  }

  /** Standard input as the lines still to come. */
  class ConsoleInput {
    const lines: seq<string>
    var position: nat

    constructor (lines: seq<string>)
      ensures this.lines == lines && position == 0
    {
      this.lines := lines;
      position := 0;
    }

    /** Console.ReadLine: the next line, or null at the end of the input,
        where the position stays. */
    method ReadLine() returns (line: Option<string>)
      modifies this
      ensures line == At(lines, old(position))
      ensures position == if old(position) < |lines| then old(position) + 1 else old(position)
    {
      if position < |lines| {
        line := Some(lines[position]);
        position := position + 1;
      } else {
        line := None;
      }
    }
  }

  // ---------------------------------------------------------------- answers

  /** The re-prompt loops stop only on exactly "true" or "false". */
  predicate IsBoolAnswer(answer: Option<string>) {
    answer == Some("true") || answer == Some("false")
  }

  /** Line `k` exists and a re-prompt loop accepts it. */
  predicate AcceptedAt(lines: seq<string>, k: nat) {
    k < |lines| && IsBoolAnswer(Some(lines[k]))
  }

  /** The first line at or after `from` that a re-prompt loop accepts. */
  function NextBoolAnswer(lines: seq<string>, from: nat): (j: Option<nat>)
    ensures j.Some? ==> from <= j.value && AcceptedAt(lines, j.value)
    ensures j.Some? ==> forall k :: from <= k < j.value ==> !AcceptedAt(lines, k)
    ensures j.None? ==> forall k :: from <= k ==> !AcceptedAt(lines, k)
    decreases |lines| - from
  {
    if from >= |lines| then None
    else if AcceptedAt(lines, from) then Some(from)
    else NextBoolAnswer(lines, from + 1)
  }

  /** An answer the loop rejects is skipped: the search goes on one line later. */
  lemma NextBoolAnswerSkips(lines: seq<string>, from: nat)
    requires !IsBoolAnswer(At(lines, from))
    ensures NextBoolAnswer(lines, from) == NextBoolAnswer(lines, from + 1)
  {
  }

  /** A line accepted after a run of rejected ones is the next accepted answer. */
  lemma NextBoolAnswerIs(lines: seq<string>, from: nat, j: nat)
    requires from <= j && AcceptedAt(lines, j)
    requires forall k :: from <= k < j ==> !AcceptedAt(lines, k)
    ensures NextBoolAnswer(lines, from) == Some(j)
  {
  }

  /** When every line from `from` on is rejected there is no next accepted answer. */
  lemma NoBoolAnswer(lines: seq<string>, from: nat)
    requires forall k :: from <= k < |lines| ==> !AcceptedAt(lines, k)
    ensures NextBoolAnswer(lines, from) == None
  {
  }

  // ---------------------------------------------------------------- bool.TryParse

  /** What bool.TryParse trims from both ends: white space and NUL. */
  predicate IsTrimmed(c: char) {
    IsWhiteSpace(c) || c == '\0'
  }

  /** The text after its leading white space and NUL. */
  function TrimStart(s: string): string
    decreases |s|
  {
    if s != [] && IsTrimmed(s[0]) then TrimStart(s[1..]) else s
  }

  /** The text before its trailing white space and NUL. */
  function TrimEnd(s: string): string
    decreases |s|
  {
    if s != [] && IsTrimmed(s[|s| - 1]) then TrimEnd(s[..|s| - 1]) else s
  }

  function Trim(s: string): string {
    TrimEnd(TrimStart(s))
  }

  /** bool.TryParse into the out variable: true exactly for "true" in any
      letter case after trimming; false when the text is null or anything else. */
  function ParseBool(answer: Option<string>): bool {
    answer.Some? && ToLower(Trim(answer.value)) == "true"
  }

  predicate AllTrimmed(s: string) {
    forall i :: 0 <= i < |s| ==> IsTrimmed(s[i])
  }

  lemma {:induction false} TrimStartPadded(pad: string, s: string)
    requires AllTrimmed(pad)
    ensures TrimStart(pad + s) == TrimStart(s)
    decreases |pad|
  {
    if pad != [] {
      var all := pad + s;
      assert all[0] == pad[0];
      assert TrimStart(all) == TrimStart(all[1..]);
      assert all[1..] == pad[1..] + s;
      var rest := pad[1..];
      forall i | 0 <= i < |rest| ensures IsTrimmed(rest[i]) {
        assert rest[i] == pad[i + 1];
      }
      TrimStartPadded(rest, s);
    } else {
      assert pad + s == s;
    }
  }

  lemma {:induction false} TrimEndPadded(s: string, pad: string)
    requires AllTrimmed(pad)
    ensures TrimEnd(s + pad) == TrimEnd(s)
    decreases |pad|
  {
    if pad != [] {
      var all := s + pad;
      assert all[|all| - 1] == pad[|pad| - 1];
      assert TrimEnd(all) == TrimEnd(all[..|all| - 1]);
      assert all[..|all| - 1] == s + pad[..|pad| - 1];
      var front := pad[..|pad| - 1];
      forall i | 0 <= i < |front| ensures IsTrimmed(front[i]) {
        assert front[i] == pad[i];
      }
      TrimEndPadded(s, front);
    } else {
      assert s + pad == s;
    }
  }

  /** A word that neither starts nor ends with a trimmed character comes out
      of Trim whole, whatever white space or NUL surrounds it. */
  lemma TrimPadded(before: string, word: string, after: string)
    requires AllTrimmed(before) && AllTrimmed(after)
    requires word != [] && !IsTrimmed(word[0]) && !IsTrimmed(word[|word| - 1])
    ensures Trim(before + word + after) == word
  {
    assert before + word + after == before + (word + after);
    TrimStartPadded(before, word + after);
    assert (word + after)[0] == word[0];
    TrimEndPadded(word, after);
  }

  /** TryParse ignores surrounding white space and NUL and the letter case. */
  lemma ParseBoolPadded(before: string, word: string, after: string)
    requires AllTrimmed(before) && AllTrimmed(after)
    requires word != [] && !IsTrimmed(word[0]) && !IsTrimmed(word[|word| - 1])
    ensures ParseBool(Some(before + word + after)) <==> ToLower(word) == "true"
  {
    TrimPadded(before, word, after);
  }

  /** On an answer the re-prompt loop accepted, TryParse reads it as written. */
  lemma ParseBoolOfAnswer(answer: Option<string>)
    requires IsBoolAnswer(answer)
    ensures ParseBool(answer) <==> answer == Some("true")
  {
    if answer == Some("true") {
      assert Trim("true") == "true" by { TrimPadded("", "true", ""); }
    } else {
      assert Trim("false") == "false" by { TrimPadded("", "false", ""); }
      assert ToLower("false")[0] == 'f';
    }
  }

  /** A null answer is read as false. */
  lemma ParseBoolNull()
    ensures !ParseBool(None)
  {
  }

  // ---------------------------------------------------------------- response file

  /** bool.ToString in an interpolated string. */
  function BoolText(b: bool): string {
    if b then "True" else "False"
  }

  /** The six values the handler puts into the response file. */
  datatype RspAnswers = RspAnswers(language: Option<string>, output: Option<string>, note: bool,
                                   sort: Option<string>, removeEmptyLines: bool, author: Option<string>)

  /** The interpolated response-file line; a null answer interpolates as "". */
  function RspContent(answers: RspAnswers): string {
    "--language " + TextOf(answers.language)
      + " --output " + TextOf(answers.output)
      + " --note " + BoolText(answers.note)
      + " --sort " + TextOf(answers.sort)
      + " --remove-empty-lines " + BoolText(answers.removeEmptyLines)
      + " --author " + TextOf(answers.author)
  }

  /** No answer holds a line break. */
  predicate SingleLineAnswers(answers: RspAnswers) {
    '\n' !in TextOf(answers.language) && '\n' !in TextOf(answers.output)
    && '\n' !in TextOf(answers.sort) && '\n' !in TextOf(answers.author)
  }

  /** The response file is one line when no answer holds a line break. */
  lemma RspContentOneLine(answers: RspAnswers)
    requires SingleLineAnswers(answers)
    ensures '\n' !in RspContent(answers)
  {
  }

  function ResponseFileName(): string {
    "response.rsp"
  }

  /** The handler either writes its one file or keeps prompting forever: once
      the input is exhausted every ReadLine is null and no null is accepted. */
  datatype RspOutcome = EndlessPrompt | Saved(fileName: string, content: string)

  function SavedAnswers(answers: Option<RspAnswers>): RspOutcome {
    if answers.None? then EndlessPrompt else Saved(ResponseFileName(), RspContent(answers.value))
  }

  /** What the handler, as written, takes from the lines from `pos` on:
      language and output, then the note re-prompted until accepted, then
      sort, remove-empty-lines and author, one line each; None when the note
      is never accepted. The second re-prompt loop tests the note again,
      which is already accepted, so the remove-empty-lines answer is never
      checked. */
  function ScriptAnswers(lines: seq<string>, pos: nat): Option<RspAnswers> {
    var noteAt := NextBoolAnswer(lines, pos + 2);
    if noteAt.None? then None
    else
      var j := noteAt.value;
      Some(RspAnswers(At(lines, pos), At(lines, pos + 1), lines[j] == "true",
        At(lines, j + 1), ParseBool(At(lines, j + 2)), At(lines, j + 3)))
  }

  lemma ScriptAnswersAt(lines: seq<string>, pos: nat, j: nat)
    requires NextBoolAnswer(lines, pos + 2) == Some(j)
    ensures ScriptAnswers(lines, pos) == Some(RspAnswers(At(lines, pos), At(lines, pos + 1), lines[j] == "true",
      At(lines, j + 1), ParseBool(At(lines, j + 2)), At(lines, j + 3)))
  {
  }

  function RspScript(lines: seq<string>, pos: nat): RspOutcome {
    SavedAnswers(ScriptAnswers(lines, pos))
  }

  /** The same with remove-empty-lines re-prompted until accepted, like the
      note, as its prompt asks. */
  function RevalidatedAnswers(lines: seq<string>, pos: nat): Option<RspAnswers> {
    var noteAt := NextBoolAnswer(lines, pos + 2);
    if noteAt.None? then None
    else
      var j := noteAt.value;
      var removeAt := NextBoolAnswer(lines, j + 2);
      if removeAt.None? then None
      else
        var r := removeAt.value;
        Some(RspAnswers(At(lines, pos), At(lines, pos + 1), lines[j] == "true",
          At(lines, j + 1), lines[r] == "true", At(lines, r + 1)))
  }

  lemma RevalidatedAnswersAt(lines: seq<string>, pos: nat, j: nat, r: nat)
    requires NextBoolAnswer(lines, pos + 2) == Some(j) && NextBoolAnswer(lines, j + 2) == Some(r)
    ensures RevalidatedAnswers(lines, pos) == Some(RspAnswers(At(lines, pos), At(lines, pos + 1),
      lines[j] == "true", At(lines, j + 1), lines[r] == "true", At(lines, r + 1)))
  {
  }

  function RspScriptRevalidated(lines: seq<string>, pos: nat): RspOutcome {
    SavedAnswers(RevalidatedAnswers(lines, pos))
  }

  /** The input stands at line `i`, or at its end when `i` is past the end:
      where it stands after reading from the start up to line `i`. */
  predicate Reached(lines: seq<string>, position: nat, i: nat) {
    position == i || |lines| <= position < i
  }

  /** Reading where the input has reached line `i` reads line `i`, and the
      input then reaches line `i + 1`. */
  lemma ReadingAt(lines: seq<string>, position: nat, i: nat)
    requires Reached(lines, position, i)
    ensures At(lines, position) == At(lines, i)
    ensures Reached(lines, if position < |lines| then position + 1 else position, i + 1)
  {
  }

  /** A re-prompt loop started where the input has reached line `i` accepts
      what one started at line `i` accepts. */
  lemma NextBoolAnswerReached(lines: seq<string>, position: nat, i: nat)
    requires Reached(lines, position, i)
    ensures NextBoolAnswer(lines, position) == NextBoolAnswer(lines, i)
  {
  }

  // ---------------------------------------------------------------- handler

  /** bool.TryParse as the handler uses it: an accepted answer reads as
      itself; anything else is parsed leniently. */
  method TryParseBool(answer: Option<string>) returns (value: bool)
    ensures value == ParseBool(answer)
    ensures IsBoolAnswer(answer) ==> (value <==> answer == Some("true"))
  {
    value := ParseBool(answer);
    if IsBoolAnswer(answer) {
      ParseBoolOfAnswer(answer);
    }
  }

  /** File.WriteAllText of the interpolated answers into response.rsp. */
  method WriteResponseFile(answers: RspAnswers) returns (outcome: RspOutcome)
    ensures outcome == SavedAnswers(Some(answers))
    ensures outcome.Saved? && outcome.fileName == "response.rsp"
    ensures SingleLineAnswers(answers) ==> '\n' !in outcome.content
  {
    var content := RspContent(answers);
    if SingleLineAnswers(answers) {
      RspContentOneLine(answers);
    }
    outcome := Saved(ResponseFileName(), content);
  }

  /** One re-prompt loop: `current` stands while it is "true" or "false";
      otherwise lines are read until one is. When the input runs out first,
      the loop would prompt forever, which `endless` reports. */
  method PromptForBool(input: ConsoleInput, current: Option<string>) returns (value: Option<string>, endless: bool)
    modifies input
    ensures IsBoolAnswer(current) ==> value == current && !endless && input.position == old(input.position)
    ensures !IsBoolAnswer(current) ==> (endless <==> NextBoolAnswer(input.lines, old(input.position)).None?)
    ensures !IsBoolAnswer(current) && !endless ==>
      var j := NextBoolAnswer(input.lines, old(input.position)).value;
      value == Some(input.lines[j]) && input.position == j + 1
  {
    ghost var start := input.position;
    value, endless := current, false;
    while !IsBoolAnswer(value)
      invariant start <= input.position
      invariant input.position == start || input.position <= |input.lines|
      invariant input.position == start ==> value == current
      invariant IsBoolAnswer(current) ==> input.position == start
      invariant input.position != start ==> value == Some(input.lines[input.position - 1])
      invariant forall k :: start <= k < input.position - 1 ==> !AcceptedAt(input.lines, k)
      invariant !IsBoolAnswer(value) ==> forall k :: start <= k < input.position ==> !AcceptedAt(input.lines, k)
      decreases |input.lines| - input.position
    {
      value := input.ReadLine();
      if value.None? {
        NoBoolAnswer(input.lines, start);
        endless := true;
        return;
      }
    }
    if !IsBoolAnswer(current) {
      NextBoolAnswerIs(input.lines, start, input.position - 1);
    }
  }

  /** Console.ReadLine where the input has reached line `i` of the answers. */
  method ReadAnswer(input: ConsoleInput, ghost i: nat) returns (line: Option<string>)
    requires Reached(input.lines, input.position, i)
    modifies input
    ensures line == At(input.lines, i)
    ensures Reached(input.lines, input.position, i + 1)
  {
    ReadingAt(input.lines, input.position, i);
    line := input.ReadLine();
  }

  /** The handler up to its first re-prompt loop: language, output, then
      the note until it is accepted. */
  method AskThroughNote(input: ConsoleInput)
    returns (languageValue: Option<string>, outputValue: Option<string>, noteValue: Option<string>, endless: bool)
    modifies input
    ensures languageValue == At(input.lines, old(input.position))
    ensures outputValue == At(input.lines, old(input.position) + 1)
    ensures endless <==> NextBoolAnswer(input.lines, old(input.position) + 2).None?
    ensures !endless ==>
      var j := NextBoolAnswer(input.lines, old(input.position) + 2).value;
      noteValue == Some(input.lines[j]) && Reached(input.lines, input.position, j + 1)
  {
    ghost var pos := input.position;
    languageValue := ReadAnswer(input, pos);
    outputValue := ReadAnswer(input, pos + 1);
    noteValue := ReadAnswer(input, pos + 2);
    NextBoolAnswerReached(input.lines, input.position, pos + 3);
    if !IsBoolAnswer(noteValue) {
      NextBoolAnswerSkips(input.lines, pos + 2);
    }
    noteValue, endless := PromptForBool(input, noteValue);
  }

  /** The answers after an accepted note, as written: sort, then
      remove-empty-lines, then the second re-prompt loop on the note, which
      stands, then author. */
  method AskAfterNote(input: ConsoleInput, ghost j: nat, noteValue: Option<string>)
    returns (sortValue: Option<string>, removeEmptyLines: bool, authorValue: Option<string>)
    requires Reached(input.lines, input.position, j + 1)
    requires IsBoolAnswer(noteValue)
    modifies input
    ensures sortValue == At(input.lines, j + 1)
    ensures removeEmptyLines == ParseBool(At(input.lines, j + 2))
    ensures authorValue == At(input.lines, j + 3)
    ensures Reached(input.lines, input.position, j + 4)
  {
    sortValue := ReadAnswer(input, j + 1);
    var removeEmptyLinesValue := ReadAnswer(input, j + 2);
    var stillNote, endless := PromptForBool(input, noteValue);
    removeEmptyLines := TryParseBool(removeEmptyLinesValue);
    authorValue := ReadAnswer(input, j + 3);
  }

  /** The create-rsp handler as written. */
  method CreateRsp(input: ConsoleInput) returns (outcome: RspOutcome)
    modifies input
    ensures outcome == RspScript(input.lines, old(input.position))
    ensures outcome.Saved? ==>
      Reached(input.lines, input.position, NextBoolAnswer(input.lines, old(input.position) + 2).value + 4)
  {
    ghost var pos := input.position;
    var languageValue, outputValue, noteValue, endless := AskThroughNote(input);
    if endless {
      return EndlessPrompt;
    }
    ghost var j := NextBoolAnswer(input.lines, pos + 2).value;
    var note := TryParseBool(noteValue);
    var sortValue, removeEmptyLines, authorValue := AskAfterNote(input, j, noteValue);
    var answers := RspAnswers(languageValue, outputValue, note, sortValue, removeEmptyLines, authorValue);
    ScriptAnswersAt(input.lines, pos, j);
    outcome := WriteResponseFile(answers);
  }

  /** Sort, then remove-empty-lines until it is accepted, once the note
      was accepted at line `j`. */
  method AskSortAndRemoveEmptyLines(input: ConsoleInput, ghost j: nat)
    returns (sortValue: Option<string>, removeEmptyLinesValue: Option<string>, endless: bool)
    requires Reached(input.lines, input.position, j + 1)
    modifies input
    ensures sortValue == At(input.lines, j + 1)
    ensures endless <==> NextBoolAnswer(input.lines, j + 2).None?
    ensures !endless ==>
      var r := NextBoolAnswer(input.lines, j + 2).value;
      removeEmptyLinesValue == Some(input.lines[r]) && Reached(input.lines, input.position, r + 1)
  {
    sortValue := ReadAnswer(input, j + 1);
    removeEmptyLinesValue := ReadAnswer(input, j + 2);
    NextBoolAnswerReached(input.lines, input.position, j + 3);
    if !IsBoolAnswer(removeEmptyLinesValue) {
      NextBoolAnswerSkips(input.lines, j + 2);
    }
    removeEmptyLinesValue, endless := PromptForBool(input, removeEmptyLinesValue);
  }

  /** The answers after an accepted note, corrected: sort, remove-empty-lines
      until accepted, then author. */
  method AskAfterNoteRevalidated(input: ConsoleInput, ghost j: nat)
    returns (sortValue: Option<string>, removeEmptyLines: bool, authorValue: Option<string>, endless: bool)
    requires Reached(input.lines, input.position, j + 1)
    modifies input
    ensures sortValue == At(input.lines, j + 1)
    ensures endless <==> NextBoolAnswer(input.lines, j + 2).None?
    ensures !endless ==>
      var r := NextBoolAnswer(input.lines, j + 2).value;
      (removeEmptyLines <==> input.lines[r] == "true") && authorValue == At(input.lines, r + 1)
  {
    var removeEmptyLinesValue;
    sortValue, removeEmptyLinesValue, endless := AskSortAndRemoveEmptyLines(input, j);
    if endless {
      return sortValue, false, None, true;
    }
    ghost var r := NextBoolAnswer(input.lines, j + 2).value;
    removeEmptyLines := TryParseBool(removeEmptyLinesValue);
    authorValue := ReadAnswer(input, r + 1);
  }

  /** The six answers of the corrected handler; None when it would prompt forever. */
  method AskAnswersRevalidated(input: ConsoleInput) returns (answers: Option<RspAnswers>)
    modifies input
    ensures answers == RevalidatedAnswers(input.lines, old(input.position))
  {
    ghost var pos := input.position;
    var languageValue, outputValue, noteValue, endless := AskThroughNote(input);
    if endless {
      return None;
    }
    ghost var j := NextBoolAnswer(input.lines, pos + 2).value;
    var note := TryParseBool(noteValue);
    var sortValue, removeEmptyLines, authorValue;
    sortValue, removeEmptyLines, authorValue, endless := AskAfterNoteRevalidated(input, j);
    if endless {
      return None;
    }
    RevalidatedAnswersAt(input.lines, pos, j, NextBoolAnswer(input.lines, j + 2).value);
    answers := Some(RspAnswers(languageValue, outputValue, note, sortValue, removeEmptyLines, authorValue));
  }

  /** The create-rsp handler with its second re-prompt loop testing the
      remove-empty-lines answer, as the prompt before it asks. */
  method CreateRspRevalidated(input: ConsoleInput) returns (outcome: RspOutcome)
    modifies input
    ensures outcome == RspScriptRevalidated(input.lines, old(input.position))
  {
    var answers := AskAnswersRevalidated(input);
    if answers.None? {
      return EndlessPrompt;
    }
    outcome := WriteResponseFile(answers.value);
  }

  // ---------------------------------------------------------------- properties

  /** The handler prompts forever exactly when no line from the note's on is
      "true" or "false". */
  lemma EndlessIffNoNoteAnswer(lines: seq<string>, pos: nat)
    ensures RspScript(lines, pos) == EndlessPrompt
      <==> forall k :: pos + 2 <= k < |lines| ==> !AcceptedAt(lines, k)
  {
    if forall k :: pos + 2 <= k < |lines| ==> !AcceptedAt(lines, k) {
      NoBoolAnswer(lines, pos + 2);
    }
  }

  /** The note written is the first accepted answer, read as written. */
  lemma NoteIsAccepted(lines: seq<string>, pos: nat)
    requires ScriptAnswers(lines, pos).Some?
    ensures exists j ::
      && pos + 2 <= j < |lines| && IsBoolAnswer(Some(lines[j]))
      && ScriptAnswers(lines, pos).value.note == (lines[j] == "true")
  {
    var j := NextBoolAnswer(lines, pos + 2).value;
  }

  /** In the corrected handler both flags come from accepted answers. */
  lemma RevalidatedFlagsAccepted(lines: seq<string>, pos: nat)
    requires RevalidatedAnswers(lines, pos).Some?
    ensures exists j, r ::
      && pos + 2 <= j < r < |lines| && IsBoolAnswer(Some(lines[j])) && IsBoolAnswer(Some(lines[r]))
      && RevalidatedAnswers(lines, pos).value.note == (lines[j] == "true")
      && RevalidatedAnswers(lines, pos).value.removeEmptyLines == (lines[r] == "true")
  {
    var j := NextBoolAnswer(lines, pos + 2).value;
    var r := NextBoolAnswer(lines, j + 2).value;
  }

  /** When the remove-empty-lines answer is accepted at once, the handler as
      written and the corrected one write the same file. */
  lemma AgreeOnAcceptedAnswer(lines: seq<string>, pos: nat)
    requires NextBoolAnswer(lines, pos + 2).Some?
    requires IsBoolAnswer(At(lines, NextBoolAnswer(lines, pos + 2).value + 2))
    ensures ScriptAnswers(lines, pos) == RevalidatedAnswers(lines, pos)
    ensures RspScript(lines, pos) == RspScriptRevalidated(lines, pos)
  {
    var j := NextBoolAnswer(lines, pos + 2).value;
    NextBoolAnswerIs(lines, j + 2, j + 2);
    ParseBoolOfAnswer(At(lines, j + 2));
    ScriptAnswersAt(lines, pos, j);
    RevalidatedAnswersAt(lines, pos, j, j + 2);
  }

  /** An input with a rejected remove-empty-lines answer ("yes") followed by
      an accepted one ("true"). */
  function RejectedAnswerInput(): seq<string> {
    ["cs", "out", "true", "name", "yes", "true", "me"]
  }

  lemma RejectedAnswerFacts()
    ensures var lines := RejectedAnswerInput();
      && |lines| == 7 && lines[2] == "true" && lines[3] == "name" && lines[4] == "yes" && lines[5] == "true"
      && !IsBoolAnswer(Some(lines[4])) && IsBoolAnswer(Some(lines[2])) && IsBoolAnswer(Some(lines[5]))
    ensures !ParseBool(Some("yes"))
  {
    TrimPadded("", "yes", "");
    assert "" + "yes" + "" == "yes";
    assert |ToLower("yes")| == 3;
  }

  /** As written, "yes" is taken as false without a new prompt, and the
      answer meant for remove-empty-lines becomes the author. */
  lemma AsWrittenSkipsSecondPrompt()
    ensures ScriptAnswers(RejectedAnswerInput(), 0)
      == Some(RspAnswers(Some("cs"), Some("out"), true, Some("name"), false, Some("true")))
  {
    var lines := RejectedAnswerInput();
    RejectedAnswerFacts();
    ParseBoolOfAnswer(Some("true"));
    assert NextBoolAnswer(lines, 2) == Some(2);
    ScriptAnswersAt(lines, 0, 2);
  }

  /** Corrected, "yes" is asked again, "true" is taken and the author is "me". */
  lemma RevalidatedPromptsAgain()
    ensures RevalidatedAnswers(RejectedAnswerInput(), 0)
      == Some(RspAnswers(Some("cs"), Some("out"), true, Some("name"), true, Some("me")))
  {
    var lines := RejectedAnswerInput();
    RejectedAnswerFacts();
    ParseBoolOfAnswer(Some("true"));
    assert NextBoolAnswer(lines, 2) == Some(2);
    assert NextBoolAnswer(lines, 4) == Some(5);
    RevalidatedAnswersAt(lines, 0, 2, 5);
  }
}
