/** What the two strict parsers accept, said without them: a text is read as a migration marker or
    as an old file exactly when it is one, for any text that may stand in the place of the
    generated file. */
module StrictFormat {
  import opened Text
  import opened Domain
  import opened Validate
  import opened Posix
  import opened FileFacts
  import opened Legacy
  import LineSearch
  import Migration
  import OldFormat

  // ----- The marker -----

  /** The marker that records `names`, and the line it stands in front of. */
  function Marker(names: seq<string>): string {
    MigrationPrefix() + Quote(Join(names, " ")) + MigrationSuffix() + GuardLine() + "\n"
  }

  lemma SplitMarker(t: string, p: string, q: string, pat: string, start: int)
    requires OccursAt(t, p, start)
    ensures var after := t[start + |p|..];
            && (OccursAt(t, p + q + pat, start)
                <==> |q| + |pat| <= |after| && after[..|q|] == q && OccursAt(after, pat, |q|))
  {
    var m, k := start + |p|, |p| + |q|;
    var after, all := t[m..], p + q + pat;
    if start + |all| <= |t| {
      assert t[start..start + |all|] == t[start..m] + t[m..m + |q|] + t[m + |q|..start + |all|];
      assert after[..|q|] == t[m..m + |q|];
      assert after[|q|..|q| + |pat|] == t[m + |q|..start + |all|];
      assert all[|p|..k] == q && all[k..] == pat;
      assert t[start..start + |all|][|p|..k] == t[m..m + |q|];
      assert t[start..start + |all|][k..] == t[m + |q|..start + |all|];
    }
  }

  lemma MarkerParts(names: seq<string>)
    ensures var pat := MigrationSuffix() + GuardLine() + "\n";
            && Marker(names) == MigrationPrefix() + Quote(Join(names, " ")) + pat
            && pat != [] && pat[0] == '\n'
  {
    hide GuardLine, MigrationPrefix, Quote, Join;
    var front := MigrationPrefix() + Quote(Join(names, " "));
    Assoc(front, MigrationSuffix(), GuardLine());
    Assoc(front, MigrationSuffix() + GuardLine(), "\n");
  }

  /** A quoted list of names ends at the first occurrence of a pattern that starts a new line. */
  lemma QuotedEnd(names: seq<string>, after: string, pat: string, sh: Shell)
    requires NameList(names, sh) && pat != [] && pat[0] == '\n'
    requires var q := Quote(Join(names, " "));
             |q| + |pat| <= |after| && after[..|q|] == q && OccursAt(after, pat, |q|)
    ensures Index(after, pat) == |Quote(Join(names, " "))|
  {
    hide Quote, Join, Less, Name, Index;
    var q := Quote(Join(names, " "));
    var rest := after[|q|..];
    NamesFree(names, sh);
    assert after == q + rest && rest[..|pat|] == pat;
    IndexSkip(q, rest, pat);
    IndexIs(rest, pat, 0);
  }

  lemma NamesFree(names: seq<string>, sh: Shell)
    requires NameList(names, sh)
    ensures '\n' !in Quote(Join(names, " "))
  {
    hide Quote, Join, Less, Name;
    forall n | n in names ensures '\n' !in n {
      NameIsWord(n, sh);
    }
    JoinFree(names, '\n');
    QuoteFree(Join(names, " "), '\n');
  }

  /** The marker parser reads `names` from a text exactly when they form a non-empty, valid and
      increasing list, the text holds one occurrence of the marker's beginning, and the marker of
      `names` stands there, in front of the managed block. */
  lemma ParsedMigrationExactly(t: string, names: seq<string>, sh: Shell)
    ensures ParseMigration(t, sh) == Some(names) <==>
            && names != [] && (forall n :: n in names ==> Name(n, sh).None?)
            && (forall i :: 0 < i < |names| ==> Less(names[i - 1], names[i]))
            && Count(t, MigrationPrefix()) == 1
            && OccursAt(t, Marker(names), Index(t, MigrationPrefix()))
  {
    hide GuardLine, IfUnsetLine, ManagedVar, Quote, DecodeQuoted, Join, NameList, Less, Index, Count, Fields, Name,
         LineSearch.Span, Marker;
    ListIs(names, sh);
    var p, q, pat := MigrationPrefix(), Quote(Join(names, " ")), MigrationSuffix() + GuardLine() + "\n";
    var start := Index(t, p);
    MarkerParts(names);
    if start >= 0 {
      var after := t[start + |p|..];
      SplitMarker(t, p, q, pat, start);
      if ParseMigration(t, sh) == Some(names) {
        var end := Index(after, pat);
        DecodeExactlyQuoted(after[..end], Join(names, " "));
        Migration.ParsedMigrationValid(t, sh);
      }
      if names != [] && NameList(names, sh) && OccursAt(t, Marker(names), start) {
        QuotedEnd(names, after, pat, sh);
        DecodeExactlyQuoted(q, Join(names, " "));
        Migration.NameListJoin(names, sh);
      }
    } else {
      assert !OccursAt(t, Marker(names), start);
    }
  }

  lemma ListIs(names: seq<string>, sh: Shell)
    ensures NameList(names, sh) <==> (forall n :: n in names ==> Name(n, sh).None?)
                                     && forall i :: 0 < i < |names| ==> Less(names[i - 1], names[i])
  {
    hide Name, Less;
  }

  // ----- The old file -----

  /** An alias as an old file shows it; the description is empty when there is none. */
  datatype OldEntry = OldEntry(name: string, command: string, description: string)

  function EntryLines(e: OldEntry): seq<string> {
    [""] + (if e.description == "" then [] else ["# " + e.description])
    + ["alias " + e.name + "=" + Quote(e.command)]
  }

  function EntriesLines(entries: seq<OldEntry>): seq<string> {
    if entries == [] then [] else EntryLines(entries[0]) + EntriesLines(entries[1..])
  }

  function EntryNames(entries: seq<OldEntry>): (names: seq<string>)
    ensures |names| == |entries| && forall i :: 0 <= i < |names| ==> names[i] == entries[i].name
  {
    if entries == [] then [] else [entries[0].name] + EntryNames(entries[1..])
  }

  predicate EntryOk(e: OldEntry, sh: Shell) {
    && Name(e.name, sh).None? && Command(e.command).None?
    && TrimSpace(e.description) == e.description && !HasControl(e.description)
  }

  ghost predicate EntriesOk(entries: seq<OldEntry>, sh: Shell) {
    && (forall i :: 0 <= i < |entries| ==> EntryOk(entries[i], sh))
    && (forall i :: 0 < i < |entries| ==> Less(entries[i - 1].name, entries[i].name))
  }

  ghost predicate After(last: Option<string>, entries: seq<OldEntry>) {
    last.Some? && entries != [] ==> Less(last.value, entries[0].name)
  }

  /** The old file that shows the given texts in its banner and then the entries. */
  function OldLines(device: string, revision: string, count: string, entries: seq<OldEntry>): seq<string> {
    [HeaderLine(), "#", "# Device:   " + device, "# Revision: " + revision, "# Aliases:  " + count, "#",
     ChangesLine(), EditLine()] + EntriesLines(entries)
  }

  /** The device ends in the shell, the revision has its form, the count is a number without a
      leading zero that counts the entries, and the entries are valid and in order. */
  ghost predicate OldFileOk(device: string, revision: string, count: string, entries: seq<OldEntry>, sh: Shell) {
    && !HasControl(device)
    && (HasSuffix("# Device:   " + device, " / " + sh) || HasSuffix("# Device:   " + device, " / " + sh + ")"))
    && IsRevision(revision)
    && count != "" && (|count| > 1 ==> count[0] != '0') && Atoi(count) == Some(|entries|)
    && |entries| <= MAX_ALIASES && EntriesOk(entries, sh)
  }

  // ----- One entry -----

  /** An alias line parses to `name` exactly when it defines an accepted command under that name. */
  lemma ParsedAliasLine(line: string, sh: Shell) returns (command: string)
    requires ParseAliasLine(line, sh).Some?
    ensures var name := ParseAliasLine(line, sh).value;
            && Name(name, sh).None? && Command(command).None?
            && line == "alias " + name + "=" + Quote(command)
  {
    hide Name, Command, Quote, DecodeQuoted;
    var rest := line[6..];
    var eq := IndexChar(rest, '=');
    command := DecodeQuoted(rest[eq + 1..]).value;
    DecodeExactlyQuoted(rest[eq + 1..], command);
    assert rest == rest[..eq] + ['='] + rest[eq + 1..];
    assert line == "alias " + rest;
    assert rest[eq + 1..] == Quote(command);
    AliasLineShape(rest[..eq], Quote(command));
  }

  lemma AliasLineShape(name: string, quoted: string)
    ensures "alias " + (name + "=" + quoted) == "alias " + name + "=" + quoted
  {
  }

  lemma EntryLineParses(e: OldEntry, sh: Shell)
    requires EntryOk(e, sh)
    ensures var line := "alias " + e.name + "=" + Quote(e.command);
            ParseAliasLine(line, sh) == Some(e.name) && !("# " <= line)
  {
    hide Name, Command, Quote, DecodeQuoted, HasControl, TrimSpace;
    NameIsWord(e.name, sh);
    var rest := e.name + "=" + Quote(e.command);
    AliasLineShape(e.name, Quote(e.command));
    var line := "alias " + rest;
    IndexCharIs(e.name, '=', Quote(e.command));
    assert line[6..] == rest;
    assert rest[..|e.name|] == e.name && rest[|e.name| + 1..] == Quote(e.command);
    DecodeExactlyQuoted(Quote(e.command), e.command);
    assert line[0] == 'a';
  }

  lemma NoDescription()
    ensures TrimSpace("") == "" && !HasControl("")
  {
  }

  // ----- The entries -----

  /** The paragraph that is read first is the lines of a valid entry. */
  lemma FirstSound(lines: seq<string>, count: nat, last: Option<string>, sh: Shell)
    returns (e: OldEntry, rest: seq<string>)
    requires count > 0 && ParseParagraphs(lines, count, last, sh).Some?
    ensures EntryOk(e, sh) && (last.Some? ==> Less(last.value, e.name)) && lines == EntryLines(e) + rest
    ensures ParseParagraphs(lines, count, last, sh)
            == Behind([e.name], ParseParagraphs(rest, count - 1, Some(e.name), sh))
  {
    hide Name, Command, Less, Quote, ParseAliasLine, HasControl, TrimSpace;
    var described := |lines| > 2 && "# " <= lines[1];
    var behind := if described then lines[2..] else lines[1..];
    var name := ParseAliasLine(behind[0], sh).value;
    var command := ParsedAliasLine(behind[0], sh);
    NoDescription();
    e := OldEntry(name, command, if described then lines[1][2..] else "");
    rest := behind[1..];
    if described {
      assert lines[1] == "# " + e.description;
      assert EntryLines(e) == [lines[0], lines[1], lines[2]];
    } else {
      assert EntryLines(e) == [lines[0], lines[1]];
    }
  }

  /** What the paragraph parser reads are the lines of valid entries, followed by the end. */
  lemma {:induction false} ParagraphsSound(lines: seq<string>, count: nat, last: Option<string>, sh: Shell)
    returns (entries: seq<OldEntry>)
    requires ParseParagraphs(lines, count, last, sh).Some?
    ensures ParseParagraphs(lines, count, last, sh).value == EntryNames(entries)
    ensures lines == EntriesLines(entries) + [""] && |entries| == count
    ensures EntriesOk(entries, sh) && After(last, entries)
    decreases count
  {
    hide EntryOk, Less, EntryLines, ParseAliasLine, ValidDescription;
    if count == 0 {
      entries := [];
      assert EntriesLines(entries) + [""] == [""];
    } else {
      var e, rest := FirstSound(lines, count, last, sh);
      var more := ParagraphsSound(rest, count - 1, Some(e.name), sh);
      entries := [e] + more;
      assert entries[1..] == more;
      Assoc(EntryLines(e), EntriesLines(more), [""]);
    }
  }

  /** The lines of valid entries, followed by the end, are read as their names. */
  lemma {:induction false} ParagraphsComplete(entries: seq<OldEntry>, last: Option<string>, sh: Shell)
    requires EntriesOk(entries, sh) && After(last, entries)
    ensures ParseParagraphs(EntriesLines(entries) + [""], |entries|, last, sh) == Some(EntryNames(entries))
  {
    hide Name, Command, Less, Quote, ParseAliasLine, HasControl, TrimSpace;
    if entries == [] {
      assert EntriesLines(entries) + [""] == [""];
    } else {
      var e, more := entries[0], entries[1..];
      ParagraphsComplete(more, Some(e.name), sh);
      EntryLineParses(e, sh);
      Assoc(EntryLines(e), EntriesLines(more), [""]);
      EntryRead(e, EntriesLines(more) + [""], |more|, last, sh);
    }
  }

  lemma EntryRead(e: OldEntry, rest: seq<string>, count: nat, last: Option<string>, sh: Shell)
    requires EntryOk(e, sh) && rest != [] && (last.Some? ==> Less(last.value, e.name))
    ensures ParseParagraphs(EntryLines(e) + rest, count + 1, last, sh) ==
            Behind([e.name], ParseParagraphs(rest, count, Some(e.name), sh))
  {
    hide Name, Command, Less, Quote, ParseAliasLine, HasControl, TrimSpace;
    EntryLineParses(e, sh);
    var line := "alias " + e.name + "=" + Quote(e.command);
    var lines := EntryLines(e) + rest;
    if e.description == "" {
      assert lines == ["", line] + rest;
      assert lines[1..][1..] == rest;
    } else {
      assert lines == ["", "# " + e.description, line] + rest;
      assert lines[2..][1..] == rest && lines[1][2..] == e.description;
    }
  }

  // ----- Line breaks -----

  lemma {:induction false} DigitsOnly(s: string)
    requires Digits(s).Some?
    ensures forall c :: c in s ==> IsDigit(c)
  {
    if s != "" {
      DigitsOnly(s[..|s| - 1]);
      assert s == s[..|s| - 1] + [s[|s| - 1]];
    }
  }

  lemma CountFree(count: string, c: char)
    requires Atoi(count).Some? && (c == '\n' || c == '\r')
    ensures c !in count
  {
    hide Digits;
    var signed := count[0] == '+' || count[0] == '-';
    var digits := if signed then count[1..] else count;
    DigitsOnly(digits);
    if signed { assert count == [count[0]] + digits; }
  }

  lemma EntryFree(e: OldEntry, sh: Shell, c: char)
    requires EntryOk(e, sh) && (c == '\n' || c == '\r')
    ensures FreeOf(EntryLines(e), c)
  {
    hide Name, Command, Quote, HasControl, TrimSpace;
    NameIsWord(e.name, sh);
    CommandIsOneLine(e.command);
    QuoteFree(e.command, c);
    PlainFree(e.description, c);
  }

  lemma PlainFree(s: string, c: char)
    requires !HasControl(s) && (c == '\n' || c == '\r')
    ensures c !in s
  {
    assert IsControl(c);
  }

  lemma {:induction false} EntriesFree(entries: seq<OldEntry>, sh: Shell, c: char)
    requires (forall i :: 0 <= i < |entries| ==> EntryOk(entries[i], sh)) && (c == '\n' || c == '\r')
    ensures FreeOf(EntriesLines(entries), c)
  {
    hide EntryOk, EntryLines;
    if entries != [] {
      EntryFree(entries[0], sh, c);
      EntriesFree(entries[1..], sh, c);
    }
  }

  lemma FixedFree(c: char)
    requires c == '\n' || c == '\r'
    ensures c !in HeaderLine() && c !in ChangesLine() && c !in EditLine()
  {
    hide HeaderLine, ChangesLine, EditLine;
    HeaderLineFree(c);
    ChangesLineFree(c);
    EditLineFree(c);
  }

  lemma HeaderLineFree(c: char)
    requires c == '\n' || c == '\r'
    ensures c !in HeaderLine()
  {
  }

  lemma ChangesLineFree(c: char)
    requires c == '\n' || c == '\r'
    ensures c !in ChangesLine()
  {
  }

  lemma EditLineFree(c: char)
    requires c == '\n' || c == '\r'
    ensures c !in EditLine()
  {
  }

  lemma PrefixesFree(c: char)
    requires c == '\n' || c == '\r'
    ensures c !in "#" && c !in "# Device:   " && c !in "# Revision: " && c !in "# Aliases:  "
  {
  }

  lemma RevisionFree(revision: string, c: char)
    requires IsRevision(revision) && (c == '\n' || c == '\r')
    ensures c !in revision
  {
  }

  lemma OldLinesFree(device: string, revision: string, count: string, entries: seq<OldEntry>, sh: Shell, c: char)
    requires OldFileOk(device, revision, count, entries, sh) && (c == '\n' || c == '\r')
    ensures FreeOf(OldLines(device, revision, count, entries), c)
  {
    hide HasControl, HasSuffix, Less, EntryOk, EntriesLines, HeaderLine, ChangesLine, EditLine, IsRevision, Atoi;
    PlainFree(device, c);
    CountFree(count, c);
    EntriesFree(entries, sh, c);
    FixedFree(c);
    PrefixesFree(c);
    RevisionFree(revision, c);
  }

  // ----- The whole file -----

  lemma SplitOnce(t: string)
    ensures var i := IndexChar(t, '\n');
            if i < 0 then SplitLines(t) == [t]
            else SplitLines(t) == [t[..i]] + SplitLines(t[i + 1..]) && t == t[..i] + "\n" + t[i + 1..]
  {
    hide IndexChar;
  }

  /** A text is its lines, each ended by a line break, and what follows the last break. */
  lemma {:induction false} SplitInverse(t: string)
    ensures var lines := SplitLines(t); t == Unlines(lines[..|lines| - 1]) + lines[|lines| - 1]
    decreases |t|
  {
    hide Unlines, IndexChar, SplitLines;
    var i := IndexChar(t, '\n');
    SplitOnce(t);
    if i < 0 {
      NoLines();
    } else {
      var more := SplitLines(t[i + 1..]);
      var front := more[..|more| - 1];
      SplitInverse(t[i + 1..]);
      assert ([t[..i]] + more)[..|more|] == [t[..i]] + front;
      LineSearch.UnlinesCons(t[..i], front);
      Assoc(t[..i] + "\n", Unlines(front), more[|more| - 1]);
    }
  }

  lemma NoLines()
    ensures Unlines([]) == ""
  {
  }

  ghost predicate OldFile(t: string, device: string, revision: string, count: string, entries: seq<OldEntry>,
                          sh: Shell)
  {
    OldFileOk(device, revision, count, entries, sh) && t == Unlines(OldLines(device, revision, count, entries))
  }

  lemma LegacySound(t: string, sh: Shell)
    returns (device: string, revision: string, count: string, entries: seq<OldEntry>)
    requires ParseLegacy(t, sh).Some?
    ensures OldFile(t, device, revision, count, entries, sh)
    ensures ParseLegacy(t, sh).value == EntryNames(entries)
  {
    hide HasControl, HasSuffix, Less, EntryOk, EntriesLines, HeaderLine, ChangesLine, EditLine, IsRevision, Atoi,
         SplitLines, Unlines, ParseParagraphs;
    var lines := SplitLines(t);
    SplitInverse(t);
    device, revision, count := lines[2][12..], lines[3][12..], lines[4][12..];
    entries := ParagraphsSound(lines[8..], ParseCount(lines[4]).value, None, sh);
    var all := lines[..|lines| - 1];
    assert t == Unlines(all) + "";
    assert lines[2] == "# Device:   " + device;
    assert lines[3] == "# Revision: " + revision;
    assert lines[4] == "# Aliases:  " + count;
    assert lines == lines[..8] + EntriesLines(entries) + [""];
    assert all == OldLines(device, revision, count, entries);
  }

  lemma LegacyComplete(t: string, device: string, revision: string, count: string, entries: seq<OldEntry>, sh: Shell)
    requires OldFile(t, device, revision, count, entries, sh)
    ensures ParseLegacy(t, sh) == Some(EntryNames(entries))
  {
    hide HasControl, HasSuffix, Less, EntryOk, EntriesLines, HeaderLine, ChangesLine, EditLine, IsRevision, Atoi,
         SplitLines, Unlines, ParseParagraphs;
    var lines := OldLines(device, revision, count, entries);
    OldLinesFree(device, revision, count, entries, sh, '\n');
    OldLinesFree(device, revision, count, entries, sh, '\r');
    SplitUnlines(lines);
    OldFormat.UnlinesShape(lines, '\r');
    var all := lines + [""];
    assert all[8..] == EntriesLines(entries) + [""];
    assert all[2][12..] == device && all[3][12..] == revision && all[4][12..] == count;
    ParagraphsComplete(entries, None, sh);
    EntriesNotShort(entries);
  }

  lemma EntriesNotShort(entries: seq<OldEntry>)
    ensures |EntriesLines(entries) + [""]| >= 1
  {
  }

  /** A text is read as an old file with the given names exactly when it is the old file of some
      device, revision and count text and of valid entries with these names in increasing order. */
  lemma ParsedLegacyExactly(t: string, names: seq<string>, sh: Shell)
    ensures ParseLegacy(t, sh) == Some(names) <==>
            exists device, revision, count, entries ::
              OldFile(t, device, revision, count, entries, sh) && names == EntryNames(entries)
  {
    hide ParseLegacy, OldFile, EntryNames;
    if ParseLegacy(t, sh) == Some(names) {
      var device, revision, count, entries := LegacySound(t, sh);
    }
    if device, revision, count, entries :|
      OldFile(t, device, revision, count, entries, sh) && names == EntryNames(entries)
    {
      LegacyComplete(t, device, revision, count, entries, sh);
    }
  }
}
