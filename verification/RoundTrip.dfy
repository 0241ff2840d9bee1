/** Importing a generated file gives back the configuration it was rendered from. */
module RoundTrip {
  import opened Text
  import opened Domain
  import opened Validate
  import opened Posix
  import opened FileFacts
  import opened Lexer
  import opened Importer
  import Bootstrap

  // ----- Lines that define nothing -----

  /** The line neither opens nor closes AliasDeck's own block and is no alias statement. */
  ghost predicate Inert(raw: string) {
    var line := CleanLine(raw);
    !(Bootstrap.BeginMarker() <= line) && !(Bootstrap.EndMarker() <= line) && AfterAliasKeyword(line) == None
  }

  ghost predicate AllInert(lines: seq<string>) {
    forall l :: l in lines ==> Inert(l)
  }

  lemma {:induction false} TrimLeftSkips(s: string, k: nat)
    requires k < |s| && !IsSpace(s[k]) && forall i :: 0 <= i < k ==> s[i] == ' '
    ensures TrimLeftSpace(s) == s[k..]
  {
    if k > 0 {
      assert s[0] == ' ';
      BlankIsSpace();
      assert forall i :: 0 <= i < k - 1 ==> s[1..][i] == s[i + 1];
      TrimLeftSkips(s[1..], k - 1);
      assert s[1..][k - 1..] == s[k..];
    }
  }

  lemma {:induction false} TrimRightKeepsFirst(s: string)
    requires s != "" && !IsSpace(s[0])
    ensures TrimRightSpace(s) != "" && TrimRightSpace(s) <= s
  {
    hide IsSpace;
    if IsSpace(s[|s| - 1]) {
      TrimRightKeepsFirst(s[..|s| - 1]);
    }
  }

  /** Cleaning keeps a prefix of what starts at the first character that is not a blank. */
  lemma CleanStart(raw: string, k: nat)
    requires k < |raw| && !IsSpace(raw[k]) && forall i :: 0 <= i < k ==> raw[i] == ' '
    ensures CleanLine(raw) != "" && CleanLine(raw) <= raw[k..]
  {
    hide TrimLeftSpace, TrimRightSpace;
    var t := TrimReturn(raw);
    assert IsSpace('\r');
    assert k < |t| && t[k..] <= raw[k..];
    TrimLeftSkips(t, k);
    TrimRightKeepsFirst(t[k..]);
  }

  lemma InertBy(raw: string, k: nat)
    requires k < |raw| && !IsSpace(raw[k]) && forall i :: 0 <= i < k ==> raw[i] == ' '
    requires raw[k] == '#' ==> |raw| <= k + 2 || (raw[k + 2] != '>' && raw[k + 2] != '<')
    requires raw[k] == 'a' ==> |raw| <= k + 1 || raw[k + 1] != 'l'
    ensures Inert(raw)
  {
    hide IsSpace, CleanLine, TrimBlanks;
    CleanStart(raw, k);
    var line, tail := CleanLine(raw), raw[k..];
    assert forall i :: 0 <= i < |line| ==> line[i] == raw[k + i];
  }

  lemma BlankInert()
    ensures Inert("")
  {
    hide TrimSpace, Bootstrap.BeginMarker, Bootstrap.EndMarker, BeginText, EndText;
    TrimSpaceKeeps("");
    MarkerTexts();
  }

  lemma HeaderInert(cfg: ResolvedConfig, count: nat)
    ensures AllInert(HeaderLines("#", cfg, count))
  {
    hide Inert, Itoa, SanitizeComment, GeneratedText, ChangesText, EditText;
    HeaderStarts();
    forall l | l in HeaderLines("#", cfg, count) ensures Inert(l) {
      InertBy(l, 0);
    }
  }

  lemma HeaderStarts()
    ensures GeneratedText() != "" && GeneratedText()[0] == 'G'
    ensures ChangesText() != "" && ChangesText()[0] == 'C'
    ensures EditText() != "" && EditText()[0] == 'E'
  {
  }

  lemma BlockInert()
    ensures AllInert(ManagedBlock()) && Inert(UnsetLine()) && Inert(IfUnsetLine()) && Inert("fi")
  {
    hide Inert, GuardLine, ForLine, UnaliasLine, UnsetLine, IfUnsetLine;
    GuardInert();
    LoopInert();
    UnsetInert();
  }

  lemma GuardInert()
    ensures Inert(GuardLine()) && Inert(IfUnsetLine()) && Inert("fi")
  {
    hide Inert, ManagedVar;
    InertBy(GuardLine(), 0);
    InertBy(IfUnsetLine(), 0);
    InertBy("fi", 0);
  }

  lemma LoopInert()
    ensures Inert(ForLine()) && Inert(UnaliasLine()) && Inert("  done")
  {
    hide Inert, ManagedVar;
    InertBy(ForLine(), 2);
    InertBy(UnaliasLine(), 4);
    InertBy("  done", 2);
  }

  lemma UnsetInert()
    ensures Inert(UnsetLine())
  {
    hide Inert;
    InertBy(UnsetLine(), 0);
  }

  lemma AssignInert(names: seq<string>)
    ensures Inert(AssignLine(names)) && Inert("  " + AssignLine(names))
  {
    hide Inert, ManagedVar, Quote;
    VarLine('\n');
    InertBy(AssignLine(names), 0);
    InertBy("  " + AssignLine(names), 2);
  }

  lemma ReloadInert()
    ensures Inert(TypesetLine()) && Inert(ReloadOpenLine()) && Inert(ReloadBodyLine())
  {
    hide Inert, TypesetLine, ReloadOpenLine, ReloadBodyLine;
    TypesetInert();
    ReloadLinesInert();
  }

  lemma TypesetInert()
    ensures Inert(TypesetLine())
  {
    hide Inert;
    InertBy(TypesetLine(), 0);
  }

  lemma ReloadLinesInert()
    ensures Inert(ReloadOpenLine()) && Inert(ReloadBodyLine())
  {
    hide Inert;
    InertBy(ReloadOpenLine(), 0);
    InertBy(ReloadBodyLine(), 2);
  }

  lemma AutoloadInert()
    ensures Inert("}") && Inert(AutoloadLine())
  {
    hide Inert;
    InertBy("}", 0);
    InertBy(AutoloadLine(), 0);
  }

  lemma DropHookInert()
    ensures Inert(DropHookLine())
  {
    hide Inert;
    InertBy(DropHookLine(), 0);
  }

  lemma AddHookInert()
    ensures Inert(AddHookLine())
  {
    hide Inert;
    InertBy(AddHookLine(), 0);
  }

  lemma HooksInert(sh: Shell)
    ensures AllInert(HookLines(sh))
  {
    hide Inert, TypesetLine, ReloadOpenLine, ReloadBodyLine, DropHookLine, AddHookLine;
    BlankInert();
    ReloadInert();
    AutoloadInert();
    DropHookInert();
    AddHookInert();
  }

  lemma {:induction false} SkipInert(lines: seq<string>, rest: seq<string>, n: nat, inBlock: bool)
    requires AllInert(lines)
    ensures ParseLines(lines + rest, n, inBlock) == ParseLines(rest, n + |lines|, inBlock)
  {
    hide CleanLine, Bootstrap.BeginMarker, Bootstrap.EndMarker, AfterAliasKeyword, Then;
    if lines == [] {
      assert lines + rest == rest;
    } else {
      assert lines[0] in lines && (lines + rest)[0] == lines[0];
      assert (lines + rest)[1..] == lines[1..] + rest;
      SkipInert(lines[1..], rest, n + 1, inBlock);
      ThenNothing(ParseLines(lines[1..] + rest, n + 1, false));
    }
  }

  // ----- Paragraphs -----

  function BeginText(): string {
    ">>> aliasdeck >>>"
  }

  function EndText(): string {
    "<<< aliasdeck <<<"
  }

  /** Whether the lines of `a` are inside an own block, given that the lines before it are: a
      printed description can open or close one. */
  function BlockAt(a: Alias, inBlock: bool): bool {
    var d := SanitizeComment(a.description);
    if BeginText() <= d then true else if EndText() <= d then false else inBlock
  }

  /** The definitions an import of the paragraphs finds. */
  function Imported(aliases: seq<Alias>, inBlock: bool): seq<(string, string)> {
    if aliases == [] then []
    else
      var b := BlockAt(aliases[0], inBlock);
      (if b then [] else [(aliases[0].name, aliases[0].command)]) + Imported(aliases[1..], b)
  }

  function Pairs(aliases: seq<Alias>): seq<(string, string)> {
    if aliases == [] then [] else [(aliases[0].name, aliases[0].command)] + Pairs(aliases[1..])
  }

  /** Exactly these definitions were found, in order, faithfully, and nothing was skipped. */
  ghost predicate Yields(p: Parsed, pairs: seq<(string, string)>) {
    && p.skipped == [] && |p.found| == |pairs|
    && forall i :: 0 <= i < |pairs| ==>
         p.found[i].name == pairs[i].0 && p.found[i].command == pairs[i].1 && !p.found[i].noted
  }

  lemma YieldsMore(f: Found, p: Parsed, pairs: seq<(string, string)>)
    requires Yields(p, pairs) && !f.noted
    ensures Yields(Then(Parsed([f], []), p), [(f.name, f.command)] + pairs)
  {
  }

  /** A comment line is cleaned to itself, so only its text decides whether it is a marker. */
  lemma CommentCleaned(d: string)
    requires d != "" && !IsSpace(d[0]) && !IsSpace(d[|d| - 1])
    ensures CleanLine("# " + d) == "# " + d
    ensures Bootstrap.BeginMarker() <= "# " + d <==> BeginText() <= d
    ensures Bootstrap.EndMarker() <= "# " + d <==> EndText() <= d
    ensures AfterAliasKeyword("# " + d) == None
  {
    hide IsSpace, TrimSpace, Bootstrap.BeginMarker, Bootstrap.EndMarker, BeginText, EndText;
    var line := "# " + d;
    assert line[0] == '#' && line[|line| - 1] == d[|d| - 1];
    SpaceFacts();
    TrimSpaceKeeps(line);
    MarkerTexts();
    PrefixBehind("# ", BeginText(), d);
    PrefixBehind("# ", EndText(), d);
  }

  lemma MarkerTexts()
    ensures Bootstrap.BeginMarker() == "# " + BeginText() && Bootstrap.EndMarker() == "# " + EndText()
  {
  }

  lemma PrefixBehind(x: string, p: string, d: string)
    ensures x + p <= x + d <==> p <= d
  {
    assert (x + d)[|x|..] == d && (x + p)[|x|..] == p;
    if x + p <= x + d {
      assert p == (x + d)[|x|..|x| + |p|] == d[..|p|];
    }
  }

  lemma MarkersDiffer(d: string)
    ensures !(BeginText() <= d && EndText() <= d)
  {
    if BeginText() <= d {
      assert d[0] == '>';
    }
  }

  lemma AliasLineCleaned(a: Alias)
    ensures CleanLine(AliasLine(a)) == AliasLine(a)
    ensures !(Bootstrap.BeginMarker() <= AliasLine(a)) && !(Bootstrap.EndMarker() <= AliasLine(a))
  {
    hide Quote, IsSpace, TrimSpace;
    QuoteEnds(a.command);
    var line := AliasLine(a);
    assert line[0] == 'a' && line[|line| - 1] == '\'';
    SpaceFacts();
    TrimSpaceKeeps(line);
  }

  /** An alias line outside the own block is read as its definition. */
  lemma AliasLineRead(a: Alias, sh: Shell, n: nat)
    requires AliasOk(a, sh)
    ensures ParseLine(AliasLine(a), n) == Parsed([Found(n, a.name, a.command, false)], [])
  {
    hide Name, Command, Description, Quote, Definitions, TrimBlanks;
    NameIsWord(a.name, sh);
    var rest := a.name + "=" + Quote(a.command);
    assert AliasLine(a) == "alias" + (" " + rest);
    assert AliasLine(a)[5..] == " " + rest;
    assert rest[0] == a.name[0];
    KeywordRest(rest);
    DefinitionRead(a, sh, n, AliasLine(a));
  }

  lemma QuoteEnds(s: string)
    ensures |Quote(s)| >= 2 && Quote(s)[0] == '\'' && Quote(s)[|Quote(s)| - 1] == '\''
  {
  }

  lemma SpaceFacts()
    ensures !IsSpace('a') && !IsSpace('#') && !IsSpace('\'') && IsSpace('\r')
  {
  }

  lemma KeywordRest(rest: string)
    requires rest != "" && !IsBlank(rest[0])
    ensures TrimBlanks(" " + rest) == rest
  {
    assert (" " + rest)[1..] == rest;
  }

  lemma DefinitionRead(a: Alias, sh: Shell, n: nat, line: string)
    requires AliasOk(a, sh)
    ensures Definitions(a.name + "=" + Quote(a.command), n, line) == Parsed([Found(n, a.name, a.command, false)], [])
  {
    hide Name, Command, Description, Quote, LexWord;
    NameIsWord(a.name, sh);
    var q := Quote(a.command);
    var s := a.name + "=" + q;
    assert s[0] == a.name[0];
    IndexCharIs(a.name, '=', q);
    assert s[..|a.name|] == a.name && s[|a.name| + 1..] == q;
    NoBlankBefore(a.name + "=", q);
    assert q + "" == q;
    LexQuoted(a.command, "");
    assert ParseAssignment(s) == Defines(a.name, Lexed(a.command, false, ""));
    assert Definitions("", n, line) == NOTHING;
    ThenNothing(Parsed([Found(n, a.name, a.command, false)], []));
  }

  lemma {:induction false} NoBlankBefore(x: string, y: string)
    requires forall c :: c in x ==> !IsBlank(c)
    ensures FieldLength(x + y) >= |x|
  {
    if x != "" {
      assert x[0] in x && (x + y)[0] == x[0] && (x + y)[1..] == x[1..] + y;
      NoBlankBefore(x[1..], y);
    }
  }

  lemma ParagraphRead(a: Alias, sh: Shell, rest: seq<string>, n: nat, inBlock: bool)
    requires AliasOk(a, sh)
    ensures var b := BlockAt(a, inBlock);
            var after := ParseLines(rest, n + |Paragraph(a)|, b);
            ParseLines(Paragraph(a) + rest, n, inBlock) ==
            if b then after else Then(Parsed([Found(n + |Paragraph(a)| - 1, a.name, a.command, false)], []), after)
  {
    hide AliasOk, AliasLine, SanitizeComment, CleanLine, Bootstrap.BeginMarker, Bootstrap.EndMarker, BeginText,
         EndText, ParseLine, AfterAliasKeyword, Then;
    var d := SanitizeComment(a.description);
    var b := BlockAt(a, inBlock);
    BlankInert();
    var body := if d == "" then [AliasLine(a)] else ["# " + d, AliasLine(a)];
    assert Paragraph(a) + rest == [""] + (body + rest);
    SkipInert([""], body + rest, n, inBlock);
    if d == "" {
      NoMarkerInEmpty();
    } else {
      SanitizedTrimmed(a.description);
      CommentCleaned(d);
      MarkersDiffer(d);
      CommentRead(d, [AliasLine(a)] + rest, n + 1, inBlock);
      assert body + rest == ["# " + d] + ([AliasLine(a)] + rest);
    }
    AliasRead(a, sh, rest, n + |Paragraph(a)| - 1, b);
    assert d == "" ==> body + rest == [AliasLine(a)] + rest;
  }

  lemma NoMarkerInEmpty()
    ensures !(BeginText() <= "") && !(EndText() <= "")
  {
  }

  lemma SanitizedTrimmed(s: string)
    requires SanitizeComment(s) != ""
    ensures !IsSpace(SanitizeComment(s)[0]) && !IsSpace(SanitizeComment(s)[|SanitizeComment(s)| - 1])
  {
    hide IsSpace;
  }

  lemma CommentRead(d: string, rest: seq<string>, n: nat, inBlock: bool)
    requires d != "" && !IsSpace(d[0]) && !IsSpace(d[|d| - 1])
    ensures ParseLines(["# " + d] + rest, n, inBlock) ==
            ParseLines(rest, n + 1, if BeginText() <= d then true else if EndText() <= d then false else inBlock)
  {
    hide CleanLine, Bootstrap.BeginMarker, Bootstrap.EndMarker, BeginText, EndText, AfterAliasKeyword, IsSpace, Then;
    CommentCleaned(d);
    assert (["# " + d] + rest)[1..] == rest;
    ThenNothing(ParseLines(rest, n + 1, false));
  }

  lemma AliasRead(a: Alias, sh: Shell, rest: seq<string>, n: nat, inBlock: bool)
    requires AliasOk(a, sh)
    ensures ParseLines([AliasLine(a)] + rest, n, inBlock) ==
            if inBlock then ParseLines(rest, n + 1, true)
            else Then(Parsed([Found(n, a.name, a.command, false)], []), ParseLines(rest, n + 1, false))
  {
    hide AliasOk, AliasLine, CleanLine, Bootstrap.BeginMarker, Bootstrap.EndMarker, ParseLine, Then;
    AliasLineRead(a, sh, n);
    AliasLineCleaned(a);
    assert ([AliasLine(a)] + rest)[1..] == rest;
  }

  lemma ParagraphNotEmpty(a: Alias)
    ensures |Paragraph(a)| >= 2
  {
  }

  lemma {:induction false} ParagraphsRead(aliases: seq<Alias>, sh: Shell, rest: seq<string>, n: nat, inBlock: bool)
    requires AliasesOk(aliases, sh) && AllInert(rest)
    ensures Yields(ParseLines(Paragraphs(aliases) + rest, n, inBlock), Imported(aliases, inBlock))
  {
    hide AliasOk, Paragraph, BlockAt, Then, Inert, ParseLines, Yields;
    if aliases == [] {
      InertYields(rest, n, inBlock);
      assert Paragraphs(aliases) + rest == rest;
    } else {
      var a, more := aliases[0], Paragraphs(aliases[1..]);
      assert a in aliases;
      ParagraphNotEmpty(a);
      var b := BlockAt(a, inBlock);
      ParagraphsRead(aliases[1..], sh, rest, n + |Paragraph(a)|, b);
      Assoc(Paragraph(a), more, rest);
      ParagraphRead(a, sh, more + rest, n, inBlock);
      if b {
        assert Imported(aliases, inBlock) == Imported(aliases[1..], b);
      } else {
        YieldsMore(Found(n + |Paragraph(a)| - 1, a.name, a.command, false),
                   ParseLines(more + rest, n + |Paragraph(a)|, b), Imported(aliases[1..], b));
      }
    }
  }

  lemma InertYields(lines: seq<string>, n: nat, inBlock: bool)
    requires AllInert(lines)
    ensures Yields(ParseLines(lines, n, inBlock), [])
  {
    hide Inert;
    assert lines + [] == lines;
    SkipInert(lines, [], n, inBlock);
  }

  // ----- The whole file -----

  lemma FrontInert(cfg: ResolvedConfig, migrated: seq<string>)
    ensures var sorted := SortAliases(cfg.aliases);
            AllInert(HeaderLines("#", cfg, |sorted|) + [""] + MigrationLines(migrated)
                     + (ManagedBlock() + [AssignLine(Names(sorted)), UnsetLine()]))
  {
    hide Inert, HeaderLines, ManagedBlock, AssignLine, UnsetLine, IfUnsetLine, SortAliases, Names;
    var sorted := SortAliases(cfg.aliases);
    HeaderInert(cfg, |sorted|);
    BlankInert();
    BlockInert();
    AssignInert(migrated);
    AssignInert(Names(sorted));
  }

  /** Importing a generated file, migrated or not, skips nothing, notes nothing, and finds the
      sorted definitions, except those that a description disguised as a block marker hides. */
  lemma FileImports(cfg: ResolvedConfig, migrated: seq<string>)
    requires Renderable(cfg) && ValidNames(migrated, cfg.device.shell)
    ensures Yields(ParsedFile(FileText(cfg, migrated)), Imported(SortAliases(cfg.aliases), false))
  {
    hide Guard, IsPosix, HeaderLines, ManagedBlock, AssignLine, UnsetLine, MigrationLines, SortAliases, Names,
         Paragraphs, HookLines, ParseLines, Inert, AliasOk, Unlines, SplitLines, ValidPlatform, ValidShell;
    var sorted, sh := SortAliases(cfg.aliases), cfg.device.shell;
    CleanAliases(cfg);
    FileFree(cfg, migrated, '\n');
    SplitUnlines(FileLines(cfg, migrated));
    var front := HeaderLines("#", cfg, |sorted|) + [""] + MigrationLines(migrated)
                 + (ManagedBlock() + [AssignLine(Names(sorted)), UnsetLine()]);
    var back := HookLines(sh) + [""];
    assert FileLines(cfg, migrated) + [""] == front + (Paragraphs(sorted) + back);
    FrontInert(cfg, migrated);
    HooksInert(sh);
    BlankInert();
    SkipInert(front, Paragraphs(sorted) + back, 1, false);
    ParagraphsRead(sorted, sh, back, 1 + |front|, false);
  }

  /** No printed description starts like AliasDeck's begin marker. */
  ghost predicate NoDisguise(aliases: seq<Alias>) {
    forall a :: a in aliases ==> !(BeginText() <= SanitizeComment(a.description))
  }

  lemma {:induction false} ImportedLength(aliases: seq<Alias>, inBlock: bool)
    ensures |Imported(aliases, inBlock)| <= |aliases| == |Pairs(aliases)|
  {
    hide BlockAt;
    if aliases != [] {
      ImportedLength(aliases[1..], BlockAt(aliases[0], inBlock));
    }
  }

  lemma {:induction false} ImportedAll(aliases: seq<Alias>)
    ensures Imported(aliases, false) == Pairs(aliases) <==> NoDisguise(aliases)
  {
    hide BeginText, EndText, SanitizeComment;
    if aliases != [] {
      var a, rest := aliases[0], aliases[1..];
      assert aliases == [a] + rest;
      ImportedAll(rest);
      ImportedLength(rest, true);
      if BlockAt(a, false) {
        assert a in aliases;
      } else {
        assert Pairs(aliases)[1..] == Pairs(rest) && Imported(aliases, false)[1..] == Imported(rest, false);
      }
    }
  }

  /** The round trip is complete exactly when no printed description starts like the begin marker. */
  lemma FileRoundTrip(cfg: ResolvedConfig, migrated: seq<string>)
    requires Renderable(cfg) && ValidNames(migrated, cfg.device.shell)
    ensures Yields(ParsedFile(FileText(cfg, migrated)), Pairs(SortAliases(cfg.aliases)))
            <==> NoDisguise(SortAliases(cfg.aliases))
  {
    hide Guard, FileText, SortAliases, ParsedFile, Imported, NoDisguise, IsPosix;
    var sorted := SortAliases(cfg.aliases);
    FileImports(cfg, migrated);
    ImportedAll(sorted);
    var p := ParsedFile(FileText(cfg, migrated));
    if Yields(p, Pairs(sorted)) {
      YieldsOne(p, Pairs(sorted), Imported(sorted, false));
    }
  }

  lemma YieldsOne(p: Parsed, x: seq<(string, string)>, y: seq<(string, string)>)
    requires Yields(p, x) && Yields(p, y)
    ensures x == y
  {
  }
}
