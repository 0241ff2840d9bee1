/** Every alias statement of a startup file and what the importer reads from it, said by an
    independent description of such statements. */
module Statements {
  import opened Text
  import opened Lexer
  import opened Importer
  import Bootstrap

  // ----- Statements -----

  predicate Blanks(s: string) {
    forall c :: c in s ==> IsBlank(c)
  }

  /** What may stand behind a word: nothing, or more after a blank. */
  predicate Apart(s: string) {
    s == "" || IsBlank(s[0])
  }

  /** A definition as it is written: blanks, a name, an equals sign and a shell word. */
  datatype Definition = Definition(gap: string, name: string, segments: seq<Segment>, ending: Ending)

  /** Where the reading of a statement stops. */
  datatype Stop =
    | Finish(gap: string, comment: string)            // at the end, or at a comment
    | Query(gap: string, word: string, more: string)  // at a word without an equals sign
    | Nameless(gap: string, more: string)             // at an equals sign without a name

  predicate DefinitionOk(d: Definition) {
    Blanks(d.gap) && d.name != "" && d.name[0] != '#' && forall c :: c in d.name ==> c != '=' && !IsBlank(c)
  }

  predicate StopOk(stop: Stop) {
    && Blanks(stop.gap)
    && match stop
       case Finish(_, comment) => comment == "" || comment[0] == '#'
       case Query(_, word, more) =>
         && word != "" && word[0] != '#' && (forall c :: c in word ==> c != '=' && !IsBlank(c))
         && Apart(more)
       case Nameless(_, _) => true
  }

  function StopText(stop: Stop): string {
    match stop
    case Finish(gap, comment) => gap + comment
    case Query(gap, word, more) => gap + (word + more)
    case Nameless(gap, more) => gap + ("=" + more)
  }

  function DefinitionText(d: Definition): string {
    d.gap + (d.name + "=" + WordText(d.segments, d.ending))
  }

  function StatementText(defs: seq<Definition>, stop: Stop): string {
    if defs == [] then StopText(stop) else DefinitionText(defs[0]) + StatementText(defs[1..], stop)
  }

  ghost predicate StatementOk(defs: seq<Definition>, stop: Stop) {
    if defs == [] then StopOk(stop)
    else
      && DefinitionOk(defs[0])
      && WordOk(defs[0].segments, defs[0].ending, StatementText(defs[1..], stop))
      && StatementOk(defs[1..], stop)
  }

  // ----- What they mean -----

  function FoundIn(defs: seq<Definition>, lineNo: nat): (found: seq<Found>)
    ensures |found| == |defs|
    ensures forall i :: 0 <= i < |defs| ==>
              found[i] == Found(lineNo, defs[i].name, WordMeaning(defs[i].segments, defs[i].ending),
                                WordExpands(defs[i].segments, defs[i].ending))
  {
    if defs == [] then [] else
      var d := defs[0];
      [Found(lineNo, d.name, WordMeaning(d.segments, d.ending), WordExpands(d.segments, d.ending))]
      + FoundIn(defs[1..], lineNo)
  }

  function SkippedAt(stop: Stop, lineNo: nat, line: string): seq<Skipped> {
    match stop
    case Finish(_, _) => []
    case Query(_, word, _) => [Skipped(lineNo, line, HasNoEquals(word))]
    case Nameless(_, _) => [Skipped(lineNo, line, NameEmpty)]
  }

  // ----- Reading -----

  lemma {:induction false} TrimGap(gap: string, more: string)
    requires Blanks(gap) && (more == "" || !IsBlank(more[0]))
    ensures TrimBlanks(gap + more) == more
  {
    if gap == "" {
      assert gap + more == more;
    } else {
      assert gap[0] in gap && (gap + more)[0] == gap[0];
      assert (gap + more)[1..] == gap[1..] + more;
      TrimGap(gap[1..], more);
    }
  }

  lemma {:induction false} FieldLengthIs(word: string, more: string)
    requires (forall c :: c in word ==> !IsBlank(c)) && Apart(more)
    ensures FieldLength(word + more) == |word| && (word + more)[..|word|] == word
  {
    if word == "" {
      assert word + more == more;
    } else {
      assert word[0] in word && (word + more)[0] == word[0];
      assert (word + more)[1..] == word[1..] + more;
      FieldLengthIs(word[1..], more);
    }
  }

  lemma {:induction false} FieldLengthAtLeast(word: string, more: string)
    requires forall c :: c in word ==> !IsBlank(c)
    ensures FieldLength(word + more) >= |word|
  {
    if word != "" {
      assert word[0] in word && (word + more)[0] == word[0];
      assert (word + more)[1..] == word[1..] + more;
      FieldLengthAtLeast(word[1..], more);
    }
  }

  lemma {:induction false} FieldUpTo(s: string)
    ensures var n := FieldLength(s); (forall c :: c in s[..n] ==> !IsBlank(c)) && Apart(s[n..])
  {
    if s != "" && !IsBlank(s[0]) {
      FieldUpTo(s[1..]);
      var n := FieldLength(s);
      assert s[..n] == [s[0]] + s[1..][..n - 1] && s[n..] == s[1..][n - 1..];
    }
  }

  /** A definition in front is read whole, whatever follows its word. */
  lemma ReadDefinition(d: Definition, rest: string)
    requires DefinitionOk(d) && WordOk(d.segments, d.ending, rest)
    ensures var s := TrimBlanks(DefinitionText(d) + rest);
            && s != "" && !("#" <= s)
            && ParseAssignment(s) == Defines(d.name, Lexed(WordMeaning(d.segments, d.ending),
                                                           WordExpands(d.segments, d.ending), rest))
  {
    hide LexWord, WordText, WordMeaning, WordExpands, FieldLength, WordOk;
    var w := WordText(d.segments, d.ending) + rest;
    var s := d.name + ['='] + w;
    Assoc(d.gap, d.name + "=" + WordText(d.segments, d.ending), rest);
    Assoc(d.name + "=", WordText(d.segments, d.ending), rest);
    assert d.name[0] in d.name && s[0] == d.name[0];
    TrimGap(d.gap, s);
    IndexCharIs(d.name, '=', w);
    Assoc(d.name, ['='], w);
    FieldLengthAtLeast(d.name, ['='] + w);
    assert s[..|d.name|] == d.name && s[|d.name| + 1..] == w;
    LexWritten(d.segments, d.ending, rest);
  }

  /** Where the reading stops, by what the text starts with. */
  lemma StopsAt(text: string, s: string, lineNo: nat, line: string)
    requires TrimBlanks(text) == s
    ensures s == "" || s[0] == '#' ==> Definitions(text, lineNo, line) == NOTHING
    ensures s != "" && s[0] != '#' && ParseAssignment(s).NoAssignment? ==>
              Definitions(text, lineNo, line) == Parsed([], [Skipped(lineNo, line, ParseAssignment(s).reason)])
  {
    hide ParseAssignment, TrimBlanks;
  }

  lemma ReadFinish(gap: string, comment: string, lineNo: nat, line: string)
    requires Blanks(gap) && (comment == "" || comment[0] == '#')
    ensures Definitions(gap + comment, lineNo, line) == NOTHING
  {
    hide Definitions, TrimBlanks, IsBlank;
    BlankCharacters();
    TrimGap(gap, comment);
    StopsAt(gap + comment, comment, lineNo, line);
  }

  lemma ReadRefused(gap: string, s: string, lineNo: nat, line: string)
    requires Blanks(gap) && s != "" && s[0] != '#' && !IsBlank(s[0]) && ParseAssignment(s).NoAssignment?
    ensures Definitions(gap + s, lineNo, line) == Parsed([], [Skipped(lineNo, line, ParseAssignment(s).reason)])
  {
    hide Definitions, TrimBlanks, IsBlank, ParseAssignment;
    TrimGap(gap, s);
    StopsAt(gap + s, s, lineNo, line);
  }

  lemma ReadStop(stop: Stop, lineNo: nat, line: string)
    requires StopOk(stop)
    ensures Definitions(StopText(stop), lineNo, line) == Parsed([], SkippedAt(stop, lineNo, line))
  {
    hide ParseAssignment, Definitions, IsBlank;
    match stop
    case Finish(gap, comment) =>
      ReadFinish(gap, comment, lineNo, line);
    case Query(gap, word, more) =>
      assert word[0] in word && (word + more)[0] == word[0];
      ReadQuery(word, more);
      ReadRefused(gap, word + more, lineNo, line);
    case Nameless(gap, more) =>
      assert ("=" + more)[0] == '=';
      BlankCharacters();
      ReadNameless(more);
      ReadRefused(gap, "=" + more, lineNo, line);
  }

  lemma BlankCharacters()
    ensures !IsBlank('#') && !IsBlank('=')
  {
  }

  lemma ReadQuery(word: string, more: string)
    requires (forall c :: c in word ==> c != '=' && !IsBlank(c)) && Apart(more)
    ensures ParseAssignment(word + more) == NoAssignment(HasNoEquals(word))
  {
    hide FieldLength, IndexChar, LexWord;
    var s := word + more;
    FieldLengthIs(word, more);
    var eq := IndexChar(s, '=');
    assert forall k :: 0 <= k < |word| ==> s[k] == word[k] && word[k] in word;
    assert more != "" ==> s[|word|] == more[0];
  }

  lemma ReadNameless(more: string)
    ensures ParseAssignment("=" + more) == NoAssignment(NameEmpty)
  {
    hide LexWord;
  }

  /** A statement is read as all its definitions, in order and with their notes, and the word at
      which the reading stops is reported with its reason. */
  lemma {:induction false} StatementRead(defs: seq<Definition>, stop: Stop, lineNo: nat, line: string)
    requires StatementOk(defs, stop)
    ensures Definitions(StatementText(defs, stop), lineNo, line)
            == Parsed(FoundIn(defs, lineNo), SkippedAt(stop, lineNo, line))
    decreases |defs|
  {
    hide DefinitionText, DefinitionOk, WordOk, StopText, StopOk, WordMeaning, WordExpands, ParseAssignment,
         SkippedAt, TrimBlanks;
    if defs == [] {
      ReadStop(stop, lineNo, line);
    } else {
      ReadDefinition(defs[0], StatementText(defs[1..], stop));
      StatementRead(defs[1..], stop, lineNo, line);
    }
  }

  lemma {:induction false} GapOf(text: string) returns (gap: string)
    ensures Blanks(gap) && text == gap + TrimBlanks(text)
  {
    hide IsBlank;
    if text != "" && IsBlank(text[0]) {
      var more := GapOf(text[1..]);
      gap := [text[0]] + more;
      Assoc([text[0]], more, TrimBlanks(text));
      assert text == [text[0]] + text[1..];
    } else {
      gap := "";
      assert "" + text == text;
    }
  }

  /** The first thing in a text: a stop, or a definition with a shorter rest. */
  lemma FirstPart(text: string) returns (d: Option<Definition>, stop: Stop, rest: string)
    ensures d.None? ==> StopOk(stop) && text == StopText(stop)
    ensures d.Some? ==> DefinitionOk(d.value) && WordOk(d.value.segments, d.value.ending, rest)
                        && text == DefinitionText(d.value) + rest && |rest| < |text|
  {
    hide WordOk, WordText, FieldLength, IndexChar, TrimBlanks, IsBlank, DefinitionText, DefinitionOk, Blanks;
    var gap := GapOf(text);
    var s := TrimBlanks(text);
    d, stop, rest := None, Finish(gap, s), "";
    if s != "" && s[0] != '#' {
      var n, eq := FieldLength(s), IndexChar(s, '=');
      FieldUpTo(s);
      if eq < 0 || n < eq {
        stop := FirstQuery(gap, s);
      } else if eq == 0 {
        stop := Nameless(gap, s[1..]);
        assert s == "=" + s[1..];
      } else {
        var def, more := FirstDefinition(gap, s, n, eq);
        d, rest := Some(def), more;
      }
    }
  }

  lemma FirstQuery(gap: string, s: string) returns (stop: Stop)
    requires Blanks(gap) && s != "" && s[0] != '#' && !IsBlank(s[0])
    requires IndexChar(s, '=') < 0 || FieldLength(s) < IndexChar(s, '=')
    ensures StopOk(stop) && gap + s == StopText(stop)
  {
    hide FieldLength, IndexChar, IsBlank;
    var n := FieldLength(s);
    FieldUpTo(s);
    StopsAtWord(s, n, IndexChar(s, '='));
    assert s == s[..n] + s[n..];
    stop := Query(gap, s[..n], s[n..]);
  }

  lemma FirstDefinition(gap: string, s: string, n: nat, eq: nat) returns (d: Definition, rest: string)
    requires Blanks(gap) && 0 < eq <= n <= |s| && eq == IndexChar(s, '=') && s[0] != '#'
    requires forall c :: c in s[..n] ==> !IsBlank(c)
    ensures DefinitionOk(d) && WordOk(d.segments, d.ending, rest)
    ensures gap + s == DefinitionText(d) + rest && |rest| < |s|
  {
    hide WordOk, WordText, IndexChar, IsBlank;
    var gs, e, more := EveryWord(s[eq + 1..]);
    d, rest := Definition(gap, s[..eq], gs, e), more;
    assert s[..eq] == s[..n][..eq];
    assert s == s[..eq] + "=" + s[eq + 1..];
    Assoc(s[..eq] + "=", WordText(gs, e), more);
    Assoc(gap, s[..eq] + "=" + WordText(gs, e), more);
  }

  lemma StopsAtWord(s: string, n: nat, eq: int)
    requires s != "" && !IsBlank(s[0]) && n == FieldLength(s) && eq == IndexChar(s, '=') && (eq < 0 || n < eq)
    ensures n > 0 && forall c :: c in s[..n] ==> c != '='
  {
    if eq >= 0 { assert s[..n] == s[..eq][..n]; }
  }

  /** Every text is such a statement, so that StatementRead describes the importer on all inputs. */
  lemma {:induction false} EveryStatement(text: string) returns (defs: seq<Definition>, stop: Stop)
    ensures StatementOk(defs, stop) && text == StatementText(defs, stop)
    decreases |text|
  {
    hide DefinitionText, DefinitionOk, WordOk, StopText, StopOk;
    var d, last, rest := FirstPart(text);
    defs, stop := [], last;
    if d.Some? {
      defs, stop := EveryStatement(rest);
      assert ([d.value] + defs)[1..] == defs;
      defs := [d.value] + defs;
    }
  }

  // ----- Lines -----

  /** The keyword with at least one blank behind it. */
  predicate AliasLine(line: string) {
    "alias" <= line && |line| > 5 && IsBlank(line[5])
  }

  /** A line that is no alias statement yields nothing. */
  lemma OtherLines(line: string, lineNo: nat)
    requires !AliasLine(line)
    ensures ParseLine(line, lineNo) == NOTHING
  {
  }

  lemma KeywordThen(gap: string, text: string)
    requires gap != "" && Blanks(gap) && (text == "" || !IsBlank(text[0]))
    ensures AfterAliasKeyword("alias" + gap + text) == Some(text)
  {
    hide TrimBlanks;
    var line := "alias" + gap + text;
    assert gap[0] in gap && line[5..] == gap + text;
    TrimGap(gap, text);
  }

  /** Definitions right behind the keyword. */
  lemma PlainStatement(gap: string, defs: seq<Definition>, stop: Stop, lineNo: nat)
    requires gap != "" && Blanks(gap) && StatementOk(defs, stop)
    requires var text := StatementText(defs, stop); text == "" || (!IsBlank(text[0]) && text[0] != '-')
    ensures var line := "alias" + gap + StatementText(defs, stop);
            ParseLine(line, lineNo) == Parsed(FoundIn(defs, lineNo), SkippedAt(stop, lineNo, line))
  {
    hide AfterAliasKeyword, StatementText, StatementOk, Definitions, SkippedAt;
    KeywordThen(gap, StatementText(defs, stop));
    StatementRead(defs, stop, lineNo, "alias" + gap + StatementText(defs, stop));
  }

  /** The end of the options is dropped; what follows is read as definitions only. */
  lemma DashesStatement(gap: string, defs: seq<Definition>, stop: Stop, lineNo: nat)
    requires gap != "" && Blanks(gap) && StatementOk(defs, stop) && Apart(StatementText(defs, stop))
    ensures var line := "alias" + gap + ("--" + StatementText(defs, stop));
            ParseLine(line, lineNo) == Parsed(FoundIn(defs, lineNo), SkippedAt(stop, lineNo, line))
  {
    hide AfterAliasKeyword, StatementText, StatementOk, SkippedAt, Definitions, StripOptions, Blanks;
    var text := StatementText(defs, stop);
    var line := "alias" + gap + ("--" + text);
    KeywordThen(gap, "--" + text);
    DashesStripped(text);
    TrimmedSame(text, lineNo, line);
    StatementRead(defs, stop, lineNo, line);
  }

  lemma DashesStripped(text: string)
    requires Apart(text)
    ensures StripOptions("--" + text) == Rest(TrimBlanks(text))
  {
    hide FieldLength, TrimBlanks;
    FieldLengthIs("--", text);
    assert ("--" + text)[2..] == text;
  }

  lemma TrimmedSame(text: string, lineNo: nat, line: string)
    ensures Definitions(TrimBlanks(text), lineNo, line) == Definitions(text, lineNo, line)
  {
    hide TrimBlanks, ParseAssignment;
    TrimTwice(text);
  }

  lemma {:induction false} TrimTwice(text: string)
    ensures TrimBlanks(TrimBlanks(text)) == TrimBlanks(text)
  {
    if text != "" && IsBlank(text[0]) {
      TrimTwice(text[1..]);
    }
  }

  /** Any other option is refused by name, and nothing on the line is read. */
  lemma OptionRefused(gap: string, field: string, more: string, lineNo: nat)
    requires gap != "" && Blanks(gap) && Apart(more)
    requires "-" <= field && field != "--" && forall c :: c in field ==> !IsBlank(c)
    ensures var line := "alias" + gap + (field + more);
            ParseLine(line, lineNo) == Parsed([], [Skipped(lineNo, line, UsesOption(field))])
  {
    hide AfterAliasKeyword, FieldLength;
    assert field[0] in field && (field + more)[0] == field[0];
    KeywordThen(gap, field + more);
    FieldLengthIs(field, more);
  }

  /** An alias statement yields nothing at all only if it holds nothing but blanks, the end of the
      options and a comment: whatever else it says is found or reported. */
  lemma NothingDropped(line: string, lineNo: nat)
    returns (gap: string, dashes: string, behind: string, comment: string)
    requires AliasLine(line) && ParseLine(line, lineNo) == NOTHING
    ensures line == "alias" + gap + (dashes + behind) + comment
    ensures Blanks(gap) && Blanks(behind) && (dashes == "" || dashes == "--")
    ensures comment == "" || comment[0] == '#'
  {
    hide TrimBlanks, StripOptions, Definitions, IsBlank, ParseLine;
    gap := GapOf(line[5..]);
    var rest := TrimBlanks(line[5..]);
    NothingRead(line, lineNo);
    var inner, last := NothingDefined(StripOptions(rest).rest, lineNo, line);
    comment := last;
    if "-" <= rest {
      dashes, behind := DashesFront(rest);
      Assoc(gap, dashes + behind, comment);
    } else {
      dashes, behind := "", "";
      NoOptions(rest);
      TrimTwice(line[5..]);
      Assoc(gap, "", comment);
    }
    KeywordFront(line, gap, dashes + behind, comment);
  }

  lemma NothingRead(line: string, lineNo: nat)
    requires AliasLine(line) && ParseLine(line, lineNo) == NOTHING
    ensures var stripped := StripOptions(TrimBlanks(line[5..]));
            stripped.Rest? && Definitions(stripped.rest, lineNo, line) == NOTHING
  {
    hide TrimBlanks, StripOptions, Definitions;
  }

  lemma NoOptions(rest: string)
    requires !("-" <= rest)
    ensures StripOptions(rest) == Rest(rest)
  {
  }

  lemma KeywordFront(line: string, gap: string, middle: string, comment: string)
    requires "alias" <= line && line[5..] == gap + middle + comment
    ensures line == "alias" + gap + middle + comment
  {
    assert line == "alias" + line[5..];
    Assoc("alias", gap + middle, comment);
    Assoc("alias", gap, middle);
  }

  lemma DashesFront(rest: string) returns (dashes: string, behind: string)
    requires "-" <= rest && StripOptions(rest).Rest?
    ensures dashes == "--" && Blanks(behind) && rest == dashes + behind + TrimBlanks(StripOptions(rest).rest)
  {
    hide TrimBlanks, FieldLength, IsBlank;
    var n := FieldLength(rest);
    dashes := rest[..n];
    behind := GapOf(rest[n..]);
    TrimTwice(rest[n..]);
    assert rest == dashes + rest[n..];
    Assoc(dashes, behind, TrimBlanks(rest[n..]));
  }

  lemma NothingDefined(text: string, lineNo: nat, line: string) returns (gap: string, comment: string)
    requires Definitions(text, lineNo, line) == NOTHING
    ensures Blanks(gap) && text == gap + comment && comment == TrimBlanks(text)
    ensures comment == "" || comment[0] == '#'
  {
    hide TrimBlanks, ParseAssignment;
    gap := GapOf(text);
    comment := TrimBlanks(text);
    AssignmentShrinks(comment);
  }

  // ----- The file -----

  predicate Begins(raw: string) {
    Bootstrap.BeginMarker() <= CleanLine(raw)
  }

  predicate Ends(raw: string) {
    Bootstrap.EndMarker() <= CleanLine(raw)
  }

  /** A begin marker stands above line i, and no end marker between the two. */
  ghost predicate Inside(lines: seq<string>, i: nat)
    requires i <= |lines|
  {
    exists j :: 0 <= j < i && Begins(lines[j]) && forall k :: j < k < i ==> !Ends(lines[k])
  }

  /** What is read from line i on: each line that is no marker and stands in no block, by itself. */
  ghost function ReadFrom(lines: seq<string>, i: nat): Parsed
    requires i <= |lines|
    decreases |lines| - i
  {
    if i == |lines| then NOTHING
    else if Begins(lines[i]) || Ends(lines[i]) || Inside(lines, i) then ReadFrom(lines, i + 1)
    else Then(ParseLine(CleanLine(lines[i]), i + 1), ReadFrom(lines, i + 1))
  }

  lemma InsideNext(lines: seq<string>, i: nat)
    requires i < |lines|
    ensures Inside(lines, i + 1) <==> Begins(lines[i]) || (Inside(lines, i) && !Ends(lines[i]))
  {
    hide Begins, Ends;
    if j :| 0 <= j < i && Begins(lines[j]) && (forall k :: j < k < i ==> !Ends(lines[k])) && !Ends(lines[i]) {
      assert forall k :: j < k < i + 1 ==> !Ends(lines[k]);
    }
    if j :| 0 <= j < i + 1 && Begins(lines[j]) && forall k :: j < k < i + 1 ==> !Ends(lines[k]) {
      assert j < i ==> Inside(lines, i) && !Ends(lines[i]);
    }
  }

  lemma MarkersDiffer(raw: string)
    ensures !(Begins(raw) && Ends(raw))
  {
    hide CleanLine;
    assert Bootstrap.BeginMarker()[2] == '>' && Bootstrap.EndMarker()[2] == '<';
  }

  /** The importer reads exactly the lines outside the program's own blocks, each with its number. */
  lemma {:induction false} ReadOutsideBlocks(lines: seq<string>, i: nat)
    requires i <= |lines|
    ensures ParseLines(lines[i..], i + 1, Inside(lines, i)) == ReadFrom(lines, i)
    decreases |lines| - i
  {
    hide ParseLine, CleanLine, Then, Bootstrap.BeginMarker, Bootstrap.EndMarker, Inside;
    if i < |lines| {
      assert lines[i..][0] == lines[i] && lines[i..][1..] == lines[i + 1..];
      InsideNext(lines, i);
      MarkersDiffer(lines[i]);
      ReadOutsideBlocks(lines, i + 1);
    }
  }

  lemma FileRead(data: string)
    ensures ParsedFile(data) == ReadFrom(SplitLines(data), 0)
  {
    hide ParseLines, ReadFrom, SplitLines;
    var lines := SplitLines(data);
    ReadOutsideBlocks(lines, 0);
    assert lines[0..] == lines;
  }
}
