/** The migration marker is an in-band round trip: what is injected into a generated file is
    exactly what is parsed back out of it, generated files never pass for old ones, and old ones
    are recognised with their names. */
module Migration {
  import opened Text
  import opened LineSearch
  import opened Domain
  import opened Validate
  import opened Posix
  import opened FileFacts
  import opened Legacy

  // ----- Injecting -----

  /** A generated file around the place where the marker goes. */
  lemma FileAround(cfg: ResolvedConfig, migrated: seq<string>) returns (rest: string)
    ensures var top := Unlines(HeaderLines("#", cfg, |SortAliases(cfg.aliases)|));
            FileText(cfg, migrated) == top + ("\n" + Unlines(MigrationLines(migrated)) + (GuardLine() + "\n" + rest))
    ensures BodyLines(SortAliases(cfg.aliases), cfg.device.shell)[0] == GuardLine()
    ensures rest == Unlines(BodyLines(SortAliases(cfg.aliases), cfg.device.shell)[1..])
  {
    hide HeaderLines, Paragraphs, HookLines, AssignLine, UnsetLine, GuardLine, ForLine, UnaliasLine, Unlines,
         MigrationLines, SortAliases;
    var sorted := SortAliases(cfg.aliases);
    var header, block := HeaderLines("#", cfg, |sorted|), MigrationLines(migrated);
    var body := BodyLines(sorted, cfg.device.shell);
    rest := Unlines(body[1..]);
    assert FileLines(cfg, migrated) == header + ([""] + (block + body));
    UnlinesAppend(header, [""] + (block + body));
    UnlinesCons("", block + body);
    UnlinesAppend(block, body);
    assert body == [GuardLine()] + body[1..];
    UnlinesCons(GuardLine(), body[1..]);
    assert "" + "\n" + (Unlines(block) + (GuardLine() + "\n" + rest))
           == "\n" + Unlines(block) + (GuardLine() + "\n" + rest);
  }

  lemma BannerNotGuard(cfg: ResolvedConfig, j: int)
    requires 0 <= j < 9
    ensures |FileLines(cfg, [])| > 12 && FileLines(cfg, [])[j] != GuardLine()
  {
    hide HeaderLines, GuardLine, FileLines, SortAliases;
    var header := HeaderLines("#", cfg, |SortAliases(cfg.aliases)|);
    FileShape(cfg, []);
    HeaderNotIndented(cfg, |SortAliases(cfg.aliases)|);
    BlockNotIndented();
    if j < 8 {
      assert FileLines(cfg, [])[j] == FileLines(cfg, [])[..8][j] == header[j] && header[j] in header;
      assert header[j][0] == '#';
    }
  }

  /** The search for the managed block ends right after the banner. */
  lemma NeedlePosition(cfg: ResolvedConfig)
    requires Renderable(cfg)
    ensures Index(FileText(cfg, []), "\n" + GuardLine() + "\n")
            == |Unlines(HeaderLines("#", cfg, |SortAliases(cfg.aliases)|))|
  {
    hide HeaderLines, GuardLine, Unlines, FileLines, Guard, IsPosix, SortAliases;
    var lines := FileLines(cfg, []);
    var header := HeaderLines("#", cfg, |SortAliases(cfg.aliases)|);
    FileShape(cfg, []);
    FileFree(cfg, [], '\n');
    GuardLineFree('\n');
    HeaderNotIndented(cfg, |SortAliases(cfg.aliases)|);
    forall j | 1 <= j < 9 ensures lines[j] != GuardLine() {
      BannerNotGuard(cfg, j);
    }
    WholeLineIndex(lines, GuardLine(), 9);
    assert lines[..9] == header + [""];
    BlankLineLength(header);
  }

  lemma BlankLineLength(lines: seq<string>)
    ensures |Unlines(lines + [""])| == |Unlines(lines)| + 1
  {
    UnlinesAppend(lines, [""]);
  }

  lemma MigrationText(names: seq<string>)
    requires names != []
    ensures Unlines(MigrationLines(names)) == MigrationPrefix() + Quote(Join(names, " ")) + MigrationSuffix()
  {
    hide IfUnsetLine, ManagedVar, Quote, Join;
    var q := Quote(Join(names, " "));
    UnlinesCons(IfUnsetLine(), ["  " + AssignLine(names), "fi"]);
    assert [IfUnsetLine()] + ["  " + AssignLine(names), "fi"] == MigrationLines(names);
    UnlinesCons("  " + AssignLine(names), ["fi"]);
    assert ["  " + AssignLine(names)] + ["fi"] == ["  " + AssignLine(names), "fi"];
    assert Unlines(["fi"]) == "fi\n" + "";
    RegroupMarker(IfUnsetLine(), ManagedVar(), q);
  }

  lemma RegroupMarker(p1: string, v: string, q: string)
    ensures p1 + "\n" + ("  " + (v + "=" + q) + "\n" + ("fi\n" + "")) == Span(p1, "  " + v + "=") + q + "\nfi\n"
  {
    assert "  " + (v + "=" + q) == "  " + v + "=" + q;
    assert "\n" + ("fi\n" + "") == "\nfi\n";
    Assoc(p1 + "\n", "  " + v + "=" + q, "\nfi\n");
    Assoc(p1 + "\n", "  " + v + "=", q);
    assert "  " + v + "=" + q + "\n" + ("fi\n" + "") == "  " + v + "=" + q + "\nfi\n";
  }

  /** Injecting names into a freshly rendered file yields the file that carries them. */
  lemma InjectFile(cfg: ResolvedConfig, names: seq<string>)
    requires Renderable(cfg) && names != []
    ensures InjectMigration(FileText(cfg, []), names) == FileText(cfg, names)
  {
    hide HeaderLines, GuardLine, Unlines, FileText, Guard, IsPosix, BodyLines, MigrationLines, Quote, Join,
         MigrationPrefix, SortAliases, Index;
    var top := Unlines(HeaderLines("#", cfg, |SortAliases(cfg.aliases)|));
    var rest := FileAround(cfg, []);
    var rest' := FileAround(cfg, names);
    NeedlePosition(cfg);
    NoMigrationLines();
    MigrationText(names);
    var g := GuardLine() + "\n";
    var marker := MigrationPrefix() + Quote(Join(names, " ")) + MigrationSuffix();
    var s := FileText(cfg, []);
    assert s == top + ("\n" + g + rest) by {
      assert "\n" + "" + (g + rest) == "\n" + g + rest;
    }
    assert "\n" + GuardLine() + "\n" == "\n" + g;
    SpliceMarker(top, "\n" + g, rest, "\n" + marker + g);
    assert "\n" + MigrationPrefix() + Quote(Join(names, " ")) + MigrationSuffix() + GuardLine() + "\n"
           == "\n" + marker + g;
    assert top + ("\n" + marker + g) + rest == top + ("\n" + marker + (g + rest));
  }

  lemma NoMigrationLines()
    ensures Unlines(MigrationLines([])) == ""
  {
  }

  lemma SpliceMarker(top: string, needle: string, rest: string, block: string)
    requires Index(top + (needle + rest), needle) == |top|
    ensures ReplaceFirst(top + (needle + rest), needle, block) == top + block + rest
  {
    var s := top + (needle + rest);
    assert s[..|top|] == top && s[|top| + |needle|..] == rest;
  }

  // ----- Parsing back -----

  lemma MarkerStart(line: string)
    ensures "  " + ManagedVar() + "=" <= line ==> Indented(line)
  {
    hide ManagedVar;
    VarLine('\n');
    var p2 := "  " + ManagedVar() + "=";
    if p2 <= line {
      assert line[0] == p2[0] && line[1] == p2[1] && line[2] == p2[2];
    }
  }

  lemma MarkerFree()
    ensures '\n' !in IfUnsetLine() && '\n' !in "  " + ManagedVar() + "="
  {
    hide ManagedVar, IfUnsetLine;
    VarLine('\n');
    IfUnsetLineFree('\n');
  }

  lemma NameListJoin(names: seq<string>, sh: Shell)
    requires NameList(names, sh)
    ensures Fields(Join(names, " ")) == names
    ensures names != [] ==> Join(names, " ") != ""
  {
    hide Name, Less, Fields;
    forall n | n in names ensures Word(n) {
      NameIsWord(n, sh);
    }
    FieldsJoin(names);
    if names != [] { assert names[0] in names && Word(names[0]); }
  }

  /** The marker of a file that carries `names` parses back to exactly `names`. */
  lemma MarkerRoundTrip(cfg: ResolvedConfig, names: seq<string>)
    requires Renderable(cfg) && NameList(names, cfg.device.shell) && names != []
    ensures ParseMigration(FileText(cfg, names), cfg.device.shell) == Some(names)
  {
    hide GuardLine, IfUnsetLine, ManagedVar, Unlines, FileLines, Guard, IsPosix, BodyLines, Quote, DecodeQuoted, Join,
         NameList, Less, Index, Count, Fields, SortAliases, Indented, Span, Name;
    var lines := FileLines(cfg, names);
    var p1, p2 := IfUnsetLine(), "  " + ManagedVar() + "=";
    var q := Quote(Join(names, " "));
    MarkerLines(cfg, names);
    SpanIndex(lines, p1, p2, 10);
    SpanCount(lines, p1, p2, 10);
    AroundSpan(lines, p1, p2, 10);
    AssignNotIndented(names);
    var before, after := Unlines(lines[..9]), Unlines([q] + lines[11..]);
    assert FileText(cfg, names) == before + Span(p1, p2) + after;
    assert (before + Span(p1, p2) + after)[|before| + |Span(p1, p2)|..] == after;
    MarkerEnd(cfg, names, lines);
    assert after[..|q|] == q by { UnlinesCons(q, lines[11..]); }
    DecodeExactlyQuoted(q, Join(names, " "));
    NameListJoin(names, cfg.device.shell);
  }

  /** The marker's lines are the only ones of their kind. */
  lemma MarkerLines(cfg: ResolvedConfig, names: seq<string>)
    requires Renderable(cfg) && NameList(names, cfg.device.shell) && names != []
    ensures var lines := FileLines(cfg, names); var p2 := "  " + ManagedVar() + "=";
            && LineFree(lines) && '\n' !in IfUnsetLine() && '\n' !in p2 && |lines| > 12
            && lines[9] == IfUnsetLine() && lines[10] == "  " + AssignLine(names) && p2 <= lines[10]
            && lines[11] == "fi" && lines[12] == GuardLine()
            && forall j :: 1 <= j < |lines| && j != 10 ==> !(p2 <= lines[j])
  {
    hide GuardLine, IfUnsetLine, ManagedVar, Unlines, FileLines, Guard, IsPosix, BodyLines, Quote, Join, Less,
         SortAliases, Indented, Name, AssignLine, HeaderLines;
    var lines := FileLines(cfg, names);
    FileFree(cfg, names, '\n');
    FileShape(cfg, names);
    assert lines[9..12][0] == lines[9] && lines[9..12][1] == lines[10] && lines[9..12][2] == lines[11];
    FileIndented(cfg, names);
    MarkerFree();
    AssignNotIndented(names);
    forall j | 1 <= j < |lines| && j != 10 ensures !("  " + ManagedVar() + "=" <= lines[j]) {
      MarkerStart(lines[j]);
    }
  }

  /** After the marker's assignment, its end is found where the quoted names stop. */
  lemma MarkerEnd(cfg: ResolvedConfig, names: seq<string>, lines: seq<string>)
    requires NameList(names, cfg.device.shell)
    requires |lines| > 12 && lines[11] == "fi" && lines[12] == GuardLine()
    ensures var q := Quote(Join(names, " "));
            Index(Unlines([q] + lines[11..]), MigrationSuffix() + GuardLine() + "\n") == |q|
  {
    hide GuardLine, Quote, Join, Less, Name, Index, Unlines;
    var q := Quote(Join(names, " "));
    var pat := MigrationSuffix() + GuardLine() + "\n";
    var rest := Unlines(lines[13..]);
    AssignFree(names, cfg.device.shell, '\n');
    assert lines[11..] == [lines[11]] + ([lines[12]] + lines[13..]);
    UnlinesCons(q, lines[11..]);
    UnlinesCons("fi", [GuardLine()] + lines[13..]);
    UnlinesCons(GuardLine(), lines[13..]);
    assert "fi" + "\n" + (GuardLine() + "\n" + rest) == "fi\n" + (GuardLine() + "\n") + rest;
    var tail := pat + rest;
    assert Unlines([q] + lines[11..]) == q + tail;
    IndexSkip(q, tail, pat);
    assert "" + pat + rest == tail;
    IndexAtFront(pat, rest);
  }

  /** A file without a marker parses to nothing. */
  lemma NoMarker(cfg: ResolvedConfig)
    requires Renderable(cfg)
    ensures ParseMigration(FileText(cfg, []), cfg.device.shell) == None
  {
    hide IfUnsetLine, ManagedVar, Unlines, FileLines, Guard, IsPosix, Indented, Index, Count;
    var lines := FileLines(cfg, []);
    FileFree(cfg, [], '\n');
    FileIndented(cfg, []);
    MarkerFree();
    forall j | 1 <= j < |lines| ensures !("  " + ManagedVar() + "=" <= lines[j]) {
      MarkerStart(lines[j]);
    }
    NoSpan(lines, IfUnsetLine(), "  " + ManagedVar() + "=");
  }

  /** Whatever text is parsed, the names that come out are a valid, strictly sorted list. */
  lemma ParsedMigrationValid(contents: string, sh: Shell)
    ensures var r := ParseMigration(contents, sh); r.Some? ==> r.value != [] && NameList(r.value, sh)
  {
    hide Name, Less, NameList, Count;
  }

  // ----- Old files -----

  lemma {:induction false} ParsedParagraphsValid(lines: seq<string>, count: nat, last: Option<string>, sh: Shell)
    ensures var r := ParseParagraphs(lines, count, last, sh);
            r.Some? ==> NameList(r.value, sh) && |r.value| == count
                        && (last.Some? && r.value != [] ==> Less(last.value, r.value[0]))
    decreases count
  {
    hide Name, Command, Less, ValidDescription, DecodeQuoted;
    if ParseParagraphs(lines, count, last, sh).Some? && count > 0 {
      var described := |lines| > 2 && "# " <= lines[1];
      var rest := if described then lines[2..] else lines[1..];
      var name := ParseAliasLine(rest[0], sh).value;
      ParsedParagraphsValid(rest[1..], count - 1, Some(name), sh);
    }
  }

  lemma ParsedLegacyValid(contents: string, sh: Shell)
    ensures var r := ParseLegacy(contents, sh); r.Some? ==> NameList(r.value, sh)
  {
    hide NameList, ParseParagraphs, ValidBanner, SplitLines, ParseCount;
    if ParseLegacy(contents, sh).Some? {
      var lines := SplitLines(contents);
      ParsedParagraphsValid(lines[8..], ParseCount(lines[4]).value, None, sh);
    }
  }

  /** No generated file, with or without a marker, passes for an old one in any shell. */
  lemma NeverLegacy(cfg: ResolvedConfig, migrated: seq<string>, sh: Shell)
    requires Renderable(cfg) && ValidNames(migrated, cfg.device.shell)
    ensures ParseLegacy(FileText(cfg, migrated), sh) == None
  {
    hide GuardLine, IfUnsetLine, FileLines, Guard, IsPosix, BodyLines, SortAliases, HeaderLines, AssignLine,
         ValidBanner, ParseCount, Name, Command, DecodeQuoted, Unlines, ValidDescription;
    var lines := FileLines(cfg, migrated);
    FileFree(cfg, migrated, '\n');
    SplitUnlines(lines);
    FileShape(cfg, migrated);
    BlockNotIndented();
    var split := lines + [""];
    assert split[8..][0] == "" && split[8..][1] == lines[9];
    if migrated != [] { assert lines[9..12][0] == lines[9]; }
    assert lines[9][0] == 'i';
    assert ParseAliasLine(lines[9], sh) == None;
    assert forall count: nat :: ParseParagraphs(split[8..], count, None, sh) == None;
  }
}
