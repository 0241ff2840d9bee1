/** Migrating the alias names of a file generated before managed-name tracking existed, and
    carrying them forward (`internal/renderers/legacy_posix.go`).  Previous content is only ever
    parsed as text. */
module Legacy {
  import opened Text
  import opened LineSearch
  import opened Domain
  import opened Validate
  import opened Posix

  // ----- The migration marker -----

  /** The first line of the marker and the start of its second. */
  function MigrationPrefix(): string {
    Span(IfUnsetLine(), "  " + ManagedVar() + "=")
  }

  function MigrationSuffix(): string {
    "\nfi\n"
  }

  function InjectMigration(current: string, names: seq<string>): string {
    var needle := "\n" + GuardLine() + "\n";
    if !Contains(current, needle) then current
    else
      var block := "\n" + MigrationPrefix() + Quote(Join(names, " ")) + MigrationSuffix();
      ReplaceFirst(current, needle, block + GuardLine() + "\n")
  }

  /** Valid alias names in strictly increasing order. */
  predicate NameList(names: seq<string>, sh: Shell) {
    && (forall n :: n in names ==> Name(n, sh).None?)
    && (forall i :: 0 < i < |names| ==> Less(names[i - 1], names[i]))
  }

  /** The names in the marker of `contents`, if it holds exactly one well-formed marker. */
  function ParseMigration(contents: string, sh: Shell): Option<seq<string>> {
    var start := Index(contents, MigrationPrefix());
    if start < 0 || Count(contents, MigrationPrefix()) != 1 then None
    else
      var after := contents[start + |MigrationPrefix()|..];
      var end := Index(after, MigrationSuffix() + GuardLine() + "\n");
      if end < 0 then None
      else
        match DecodeQuoted(after[..end])
        case None => None
        case Some(decoded) =>
          var names := Fields(decoded);
          if decoded == "" || Join(names, " ") != decoded || !NameList(names, sh) then None else Some(names)
  }

  /** The same search as the program writes it: offsets first, then the names one by one. */
  method ParseCurrentLegacyMigration(contents: string, sh: Shell) returns (r: Option<seq<string>>)
    ensures r == ParseMigration(contents, sh)
  {
    hide Name, Less, GuardLine, IfUnsetLine, ManagedVar, Fields, DecodeQuoted, Join, Count;
    var start := Index(contents, MigrationPrefix());
    if start < 0 || Count(contents, MigrationPrefix()) != 1 {
      return None;
    }
    start := start + |MigrationPrefix()|;
    var end := Index(contents[start..], MigrationSuffix() + GuardLine() + "\n");
    if end < 0 {
      return None;
    }
    var raw := contents[start..start + end];
    SliceOfSlice(contents, start, end);
    var decoded := DecodeQuoted(raw);
    if decoded == None || decoded.value == "" {
      return None;
    }
    var names := Fields(decoded.value);
    if Join(names, " ") != decoded.value {
      return None;
    }
    for i := 0 to |names|
      invariant forall k :: 0 <= k < i ==> Name(names[k], sh).None? && (k > 0 ==> Less(names[k - 1], names[k]))
    {
      if Name(names[i], sh) != None || (i > 0 && !Less(names[i - 1], names[i])) {
        assert names[i] in names;
        return None;
      }
    }
    return Some(names);
  }

  // ----- The old file format -----

  function HeaderLine(): string {
    "# " + "Generated by AliasDeck." + " Do not edit."
  }

  function ChangesLine(): string {
    "# " + "Changes made to this file" + " are lost on the next " + "`aliasdeck sync`."
  }

  function EditLine(): string {
    "# " + "Edit your aliases.yaml, or use" + " the AliasDeck web UI."
  }

  /** `unicode.IsControl`. */
  predicate IsControl(c: char) {
    c < ' ' || '\U{007F}' <= c <= '\U{009F}'
  }

  predicate HasControl(s: string) {
    exists c :: c in s && IsControl(c)
  }

  predicate ValidDeviceLine(line: string, sh: Shell) {
    var prefix := "# Device:   ";
    && prefix <= line && !HasControl(line[|prefix|..])
    && (HasSuffix(line, " / " + sh) || HasSuffix(line, " / " + sh + ")"))
  }

  predicate ValidRevisionLine(line: string) {
    var prefix := "# Revision: ";
    prefix <= line && IsRevision(line[|prefix|..])
  }

  function ParseCount(line: string): Option<nat> {
    var prefix := "# Aliases:  ";
    if !(prefix <= line) then None
    else
      var raw := line[|prefix|..];
      if raw == "" || (|raw| > 1 && raw[0] == '0') then None
      else
        match Atoi(raw)
        case None => None
        case Some(n) => if 0 <= n <= MAX_ALIASES then Some(n) else None
  }

  predicate ValidDescription(d: string) {
    d != "" && TrimSpace(d) == d && !HasControl(d)
  }

  /** The name an alias line of the old format defines. */
  function ParseAliasLine(line: string, sh: Shell): Option<string> {
    var prefix := "alias ";
    if !(prefix <= line) then None
    else
      var rest := line[|prefix|..];
      var eq := IndexChar(rest, '=');
      if eq < 0 || Name(rest[..eq], sh) != None then None
      else
        match DecodeQuoted(rest[eq + 1..])
        case None => None
        case Some(command) => if Command(command) != None then None else Some(rest[..eq])
  }

  /** Reads `count` alias paragraphs, in increasing order of name after `last`, and then the end. */
  function ParseParagraphs(lines: seq<string>, count: nat, last: Option<string>, sh: Shell): Option<seq<string>>
    decreases count
  {
    if count == 0 then
      if lines == [""] then Some([]) else None
    else if |lines| < 2 || lines[0] != "" then None
    else
      var described := |lines| > 2 && "# " <= lines[1];
      if described && !ValidDescription(lines[1][2..]) then None
      else
        var rest := if described then lines[2..] else lines[1..];
        if |rest| < 2 then None
        else
          match ParseAliasLine(rest[0], sh)
          case None => None
          case Some(name) =>
            if last.Some? && !Less(last.value, name) then None
            else Behind([name], ParseParagraphs(rest[1..], count - 1, Some(name), sh))
  }

  /** The result of reading more paragraphs behind the names already read. */
  function Behind(names: seq<string>, more: Option<seq<string>>): Option<seq<string>> {
    match more
    case None => None
    case Some(rest) => Some(names + rest)
  }

  lemma BehindNone(more: Option<seq<string>>)
    ensures Behind([], more) == more
  {
    if more.Some? { assert [] + more.value == more.value; }
  }

  lemma BehindEnd(names: seq<string>)
    ensures Behind(names, Some([])) == Some(names)
  {
    assert names + [] == names;
  }

  lemma BehindMore(names: seq<string>, name: string, more: Option<seq<string>>)
    ensures Behind(names, Behind([name], more)) == Behind(names + [name], more)
  {
    if more.Some? { Assoc(names, [name], more.value); }
  }

  predicate ValidBanner(lines: seq<string>, sh: Shell)
    requires |lines| >= 8
  {
    && lines[0] == HeaderLine() && lines[1] == "#"
    && ValidDeviceLine(lines[2], sh) && ValidRevisionLine(lines[3])
    && lines[5] == "#" && lines[6] == ChangesLine() && lines[7] == EditLine()
  }

  /** The names of an exact old-format file. */
  function ParseLegacy(contents: string, sh: Shell): Option<seq<string>> {
    if contents == "" || '\r' in contents || !HasSuffix(contents, "\n") then None
    else
      var lines := SplitLines(contents);
      if |lines| < 9 || lines[|lines| - 1] != "" || !ValidBanner(lines, sh) then None
      else
        match ParseCount(lines[4])
        case None => None
        case Some(count) => ParseParagraphs(lines[8..], count, None, sh)
  }

  function LastOf(names: seq<string>): Option<string> {
    if names == [] then None else Some(names[|names| - 1])
  }

  /** `parseLegacyPOSIXAliases`: one cursor over the lines. */
  method ParseLegacyPOSIXAliases(contents: string, sh: Shell) returns (r: Option<seq<string>>)
    ensures r == ParseLegacy(contents, sh)
  {
    hide ValidBanner, SplitLines, ParseAliasLine, ValidDescription, Less, HasSuffix;
    if contents == "" || '\r' in contents || !HasSuffix(contents, "\n") {
      return None;
    }
    var lines := SplitLines(contents);
    if |lines| < 9 || lines[|lines| - 1] != "" || !ValidBanner(lines, sh) {
      return None;
    }
    var count := ParseCount(lines[4]);
    if count == None {
      return None;
    }
    r := ParseBody(lines, count.value, sh);
  }

  method ParseBody(lines: seq<string>, count: nat, sh: Shell) returns (r: Option<seq<string>>)
    requires |lines| >= 9
    ensures r == ParseParagraphs(lines[8..], count, None, sh)
  {
    hide ParseAliasLine, ValidDescription, Less;
    var names: seq<string> := [];
    var i := 8;
    BehindNone(ParseParagraphs(lines[8..], count, None, sh));
    while |names| < count
      invariant |names| <= count && 8 <= i <= |lines|
      invariant Behind(names, ParseParagraphs(lines[i..], count - |names|, LastOf(names), sh))
                == ParseParagraphs(lines[8..], count, None, sh)
    {
      if i >= |lines| - 1 || lines[i] != "" {
        return None;
      }
      i := i + 1;
      if i < |lines| - 1 && "# " <= lines[i] {
        if !ValidDescription(lines[i][2..]) {
          return None;
        }
        i := i + 1;
      }
      if i >= |lines| - 1 {
        return None;
      }
      var name := ParseAliasLine(lines[i], sh);
      if name == None || (names != [] && !Less(names[|names| - 1], name.value)) {
        return None;
      }
      BehindMore(names, name.value, ParseParagraphs(lines[i + 1..], count - |names| - 1, name, sh));
      names := names + [name.value];
      i := i + 1;
    }
    if i != |lines| - 1 || lines[i] != "" {
      assert lines[i..] != [""];
      return None;
    }
    assert lines[i..] == [""] ;
    BehindEnd(names);
    return Some(names);
  }

  // ----- The two entry points -----

  function MigrateLegacy(current: string, previous: string, sh: Shell): string {
    if !IsPosix(sh) then current
    else
      match ParseLegacy(previous, sh)
      case None => current
      case Some(names) => if names == [] then current else InjectMigration(current, names)
  }

  function CarryForward(current: string, previous: string, sh: Shell): string {
    if !IsPosix(sh) then current
    else
      match ParseMigration(previous, sh)
      case None => current
      case Some(names) => InjectMigration(current, names)
  }

  /** Only bash and zsh files are migrated or carried forward, and a text from which no names are read, or which
      lacks the managed block, stays as it is. */
  lemma StaysExactly(current: string, previous: string, sh: Shell)
    requires sh == POWERSHELL || Index(current, "\n" + GuardLine() + "\n") < 0
             || (ParseLegacy(previous, sh) in {None, Some([])} && ParseMigration(previous, sh) == None)
    ensures MigrateLegacy(current, previous, sh) == current && CarryForward(current, previous, sh) == current
  {
    hide ParseLegacy, ParseMigration, GuardLine;
  }
}
