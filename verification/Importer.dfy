/** Reading alias definitions out of a shell startup file (`internal/importers/posix.go`): line by
    line, never executed, nothing that looks like an alias dropped silently. */
module Importer {
  import opened Text
  import opened Lexer
  import Bootstrap

  datatype Reason =
    | UsesOption(field: string) | HasNoEquals(word: string) | NameEmpty
    | Redefined(line: nat) | NameRefused | CommandRefused

  datatype Found = Found(line: nat, name: string, command: string, noted: bool)

  datatype Skipped = Skipped(line: nat, text: string, reason: Reason)

  datatype Parsed = Parsed(found: seq<Found>, skipped: seq<Skipped>)

  const NOTHING := Parsed([], [])

  function Then(a: Parsed, b: Parsed): Parsed {
    Parsed(a.found + b.found, a.skipped + b.skipped)
  }

  lemma ThenAssoc(a: Parsed, b: Parsed, c: Parsed)
    ensures Then(a, Then(b, c)) == Then(Then(a, b), c)
  {
    Assoc(a.found, b.found, c.found);
    Assoc(a.skipped, b.skipped, c.skipped);
  }

  lemma ThenNothing(a: Parsed)
    ensures Then(a, NOTHING) == a && Then(NOTHING, a) == a
  {
    assert a.found + [] == a.found && [] + a.found == a.found;
    assert a.skipped + [] == a.skipped && [] + a.skipped == a.skipped;
  }

  // ----- One line -----

  function TrimReturn(s: string): string {
    if s != "" && s[|s| - 1] == '\r' then s[..|s| - 1] else s
  }

  function CleanLine(raw: string): string {
    TrimSpace(TrimReturn(raw))
  }

  function AfterAliasKeyword(line: string): Option<string> {
    if !("alias" <= line) then None
    else
      var rest := line[5..];
      if rest == "" || !IsBlank(rest[0]) then None else Some(TrimBlanks(rest))
  }

  /** The length of the part before the first blank. */
  function FieldLength(s: string): (n: nat)
    ensures n <= |s|
  {
    if s == "" || IsBlank(s[0]) then 0 else 1 + FieldLength(s[1..])
  }

  datatype Stripped = Rest(rest: string) | Refused(reason: Reason)

  /** Option words before the first definition: `--` is dropped, anything else is refused. */
  function StripOptions(s: string): Stripped {
    if !("-" <= s) then Rest(s)
    else
      var field := s[..FieldLength(s)];
      if field == "--" then Rest(TrimBlanks(s[|field|..])) else Refused(UsesOption(field))
  }

  datatype Assignment = Defines(name: string, lexed: Lexed) | NoAssignment(reason: Reason)

  function ParseAssignment(s: string): Assignment {
    var eq := IndexChar(s, '=');
    if eq < 0 || FieldLength(s) < eq then NoAssignment(HasNoEquals(s[..FieldLength(s)]))
    else if eq == 0 then NoAssignment(NameEmpty)
    else Defines(s[..eq], LexWord(s[eq + 1..]))
  }

  lemma AssignmentShrinks(s: string)
    ensures ParseAssignment(s).Defines? ==> |ParseAssignment(s).lexed.rest| < |s|
  {
    hide LexWord, FieldLength;
    var eq := IndexChar(s, '=');
    if eq >= 0 { LexWordShortens(s[eq + 1..]); }
  }

  /** `alias a=1 b=2` is one statement with two definitions. */
  function Definitions(text: string, lineNo: nat, line: string): Parsed
    decreases |text|
  {
    var s := TrimBlanks(text);
    if s == "" || "#" <= s then NOTHING
    else
      AssignmentShrinks(s);
      match ParseAssignment(s)
      case NoAssignment(reason) => Parsed([], [Skipped(lineNo, line, reason)])
      case Defines(name, lexed) =>
        Then(Parsed([Found(lineNo, name, lexed.value, lexed.expandable)], []), Definitions(lexed.rest, lineNo, line))
  }

  /** What one line outside AliasDeck's own block yields. */
  function ParseLine(line: string, lineNo: nat): Parsed {
    match AfterAliasKeyword(line)
    case None => NOTHING
    case Some(rest) =>
      match StripOptions(rest)
      case Refused(reason) => Parsed([], [Skipped(lineNo, line, reason)])
      case Rest(definitions) => Definitions(definitions, lineNo, line)
  }

  // ----- The file -----

  function ParseLines(lines: seq<string>, lineNo: nat, inOwnBlock: bool): Parsed
    decreases |lines|
  {
    if lines == [] then NOTHING
    else
      var line := CleanLine(lines[0]);
      if Bootstrap.BeginMarker() <= line then ParseLines(lines[1..], lineNo + 1, true)
      else if Bootstrap.EndMarker() <= line then ParseLines(lines[1..], lineNo + 1, false)
      else if inOwnBlock then ParseLines(lines[1..], lineNo + 1, true)
      else Then(ParseLine(line, lineNo), ParseLines(lines[1..], lineNo + 1, false))
  }

  function ParsedFile(data: string): Parsed {
    ParseLines(SplitLines(data), 1, false)
  }

  /** `ParsePOSIX`. */
  method ParsePOSIX(data: string) returns (res: Parsed)
    ensures res == ParsedFile(data)
  {
    hide Then, CleanLine, Bootstrap.BeginMarker, Bootstrap.EndMarker, ParseLine, SplitLines;
    res := NOTHING;
    var inOwnBlock := false;
    var lines := SplitLines(data);
    ThenNothing(ParseLines(lines, 1, false));
    for i := 0 to |lines|
      invariant Then(res, ParseLines(lines[i..], i + 1, inOwnBlock)) == ParsedFile(data)
    {
      var line := CleanLine(lines[i]);
      var lineNo := i + 1;
      assert lines[i..] == [lines[i]] + lines[i + 1..];
      if Bootstrap.BeginMarker() <= line {
        inOwnBlock := true;
        continue;
      }
      if Bootstrap.EndMarker() <= line {
        inOwnBlock := false;
        continue;
      }
      if inOwnBlock {
        continue;
      }
      ThenAssoc(res, ParseLine(line, lineNo), ParseLines(lines[i + 1..], i + 2, false));
      res := ParseStatement(res, line, lineNo);
    }
    ThenNothing(res);
  }

  /** The body of the loop for a line outside the own block. */
  method ParseStatement(before: Parsed, line: string, lineNo: nat) returns (res: Parsed)
    ensures res == Then(before, ParseLine(line, lineNo))
  {
    hide Then, LexWord, StripOptions, AfterAliasKeyword;
    res := before;
    ThenNothing(before);
    var after := AfterAliasKeyword(line);
    if after == None {
      return;
    }
    var stripped := StripOptions(after.value);
    if stripped.Refused? {
      AppendSkipped(res, Skipped(lineNo, line, stripped.reason));
      return Parsed(res.found, res.skipped + [Skipped(lineNo, line, stripped.reason)]);
    }
    var rest := stripped.rest;
    while true
      invariant Then(res, Definitions(rest, lineNo, line)) == Then(before, Definitions(stripped.rest, lineNo, line))
      decreases |rest|
    {
      ghost var text := rest;
      rest := TrimBlanks(rest);
      if rest == "" || "#" <= rest {
        ThenNothing(res);
        break;
      }
      AssignmentShrinks(rest);
      var assignment := ParseAssignment(rest);
      if assignment.NoAssignment? {
        AppendSkipped(res, Skipped(lineNo, line, assignment.reason));
        res := Parsed(res.found, res.skipped + [Skipped(lineNo, line, assignment.reason)]);
        break;
      }
      var found := Found(lineNo, assignment.name, assignment.lexed.value, assignment.lexed.expandable);
      ThenAssoc(res, Parsed([found], []), Definitions(assignment.lexed.rest, lineNo, line));
      AppendFound(res, found);
      res := Parsed(res.found + [found], res.skipped);
      rest := assignment.lexed.rest;
    }
  }

  lemma AppendSkipped(a: Parsed, s: Skipped)
    ensures Then(a, Parsed([], [s])) == Parsed(a.found, a.skipped + [s])
  {
    assert a.found + [] == a.found;
  }

  lemma AppendFound(a: Parsed, f: Found)
    ensures Then(a, Parsed([f], [])) == Parsed(a.found + [f], a.skipped)
  {
    assert a.skipped + [] == a.skipped;
  }
}
