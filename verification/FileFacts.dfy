/** What every line of a generated file looks like: free of line breaks, and never mistaken for the
    assignment inside a migration block. */
module FileFacts {
  import opened Text
  import opened Domain
  import opened Validate
  import opened Posix

  /** Configurations that bash and zsh sync can be asked to write: accepted by the guard, with a
      revision that cannot break a line (every source computes it as hex digits). */
  ghost predicate Renderable(cfg: ResolvedConfig) {
    Guard(cfg) && IsPosix(cfg.device.shell) && LineSafe(cfg.revision)
  }

  predicate LineSafe(s: string) {
    '\n' !in s && '\r' !in s
  }

  ghost predicate FreeOf(lines: seq<string>, c: char) {
    forall l :: l in lines ==> c !in l
  }

  /** Starts like the assignment line of a migration block. */
  predicate Indented(line: string) {
    |line| >= 3 && line[0] == ' ' && line[1] == ' ' && line[2] == 'A'
  }

  ghost predicate NoneIndented(lines: seq<string>) {
    forall l :: l in lines ==> !Indented(l)
  }

  ghost predicate AliasesOk(aliases: seq<Alias>, sh: Shell) {
    forall a :: a in aliases ==> AliasOk(a, sh)
  }

  ghost predicate ValidNames(names: seq<string>, sh: Shell) {
    forall n :: n in names ==> Name(n, sh).None?
  }

  lemma CleanAliases(cfg: ResolvedConfig)
    requires Guard(cfg)
    ensures ValidPlatform(cfg.device.platform) && ValidShell(cfg.device.shell)
    ensures AliasesOk(SortAliases(cfg.aliases), cfg.device.shell)
    ensures ValidNames(Names(SortAliases(cfg.aliases)), cfg.device.shell)
    ensures |SortAliases(cfg.aliases)| <= MAX_ALIASES
  {
    hide AliasOk, ConfigIssues, Errors, ValidPlatform, ValidShell, SortAliases, DuplicateKey;
    GuardMeansClean(cfg);
    var sorted := SortAliases(cfg.aliases);
    SortSorts(cfg.aliases);
    forall a | a in sorted ensures AliasOk(a, cfg.device.shell) {
      assert a in multiset(sorted);
    }
    NamesValid(sorted, cfg.device.shell);
  }

  lemma {:induction false} NamesValid(aliases: seq<Alias>, sh: Shell)
    requires AliasesOk(aliases, sh)
    ensures ValidNames(Names(aliases), sh)
  {
    hide Name, Command, Description;
    if aliases != [] {
      assert aliases[0] in aliases;
      NamesValid(aliases[1..], sh);
    }
  }

  // ----- The fixed lines -----

  lemma VarLine(c: char)
    requires c == '\n' || c == '\r'
    ensures c !in ManagedVar() && ManagedVar()[0] == 'A' && |ManagedVar()| > 1
  {
  }

  lemma GuardLineFree(c: char)
    requires c == '\n' || c == '\r'
    ensures c !in GuardLine()
  {
    hide ManagedVar;
    VarLine(c);
  }

  lemma ForLineFree(c: char)
    requires c == '\n' || c == '\r'
    ensures c !in ForLine()
  {
    hide ManagedVar;
    VarLine(c);
  }

  lemma UnaliasLineFree(c: char)
    requires c == '\n' || c == '\r'
    ensures c !in UnaliasLine()
  {
  }

  lemma IfUnsetLineFree(c: char)
    requires c == '\n' || c == '\r'
    ensures c !in IfUnsetLine()
  {
    hide ManagedVar;
    VarLine(c);
  }

  lemma UnsetLineFree(c: char)
    requires c == '\n' || c == '\r'
    ensures c !in UnsetLine()
  {
  }

  lemma BlockFree(c: char)
    requires c == '\n' || c == '\r'
    ensures FreeOf(ManagedBlock(), c) && c !in IfUnsetLine() && c !in UnsetLine()
  {
    hide GuardLine, ForLine, UnaliasLine, IfUnsetLine, UnsetLine;
    GuardLineFree(c);
    ForLineFree(c);
    UnaliasLineFree(c);
    IfUnsetLineFree(c);
    UnsetLineFree(c);
  }

  lemma BlockNotIndented()
    ensures NoneIndented(ManagedBlock()) && !Indented(IfUnsetLine()) && !Indented(UnsetLine()) && !Indented("fi")
    ensures GuardLine()[0] == 'i' && IfUnsetLine()[0] == 'i' && |GuardLine()| > 1 && |IfUnsetLine()| > 1
  {
    hide ManagedVar;
  }

  lemma TypesetLineFree(c: char)
    requires c == '\n' || c == '\r'
    ensures c !in TypesetLine()
  {
  }

  lemma ReloadOpenLineFree(c: char)
    requires c == '\n' || c == '\r'
    ensures c !in ReloadOpenLine()
  {
  }

  lemma ReloadBodyLineFree(c: char)
    requires c == '\n' || c == '\r'
    ensures c !in ReloadBodyLine()
  {
  }

  lemma DropHookLineFree(c: char)
    requires c == '\n' || c == '\r'
    ensures c !in DropHookLine()
  {
  }

  lemma AddHookLineFree(c: char)
    requires c == '\n' || c == '\r'
    ensures c !in AddHookLine()
  {
  }

  lemma HookFree(sh: Shell, c: char)
    requires c == '\n' || c == '\r'
    ensures FreeOf(HookLines(sh), c)
  {
    hide TypesetLine, ReloadOpenLine, ReloadBodyLine, DropHookLine, AddHookLine;
    TypesetLineFree(c);
    ReloadOpenLineFree(c);
    ReloadBodyLineFree(c);
    DropHookLineFree(c);
    AddHookLineFree(c);
    assert c !in AutoloadLine();
  }

  lemma HookNotIndented(sh: Shell)
    ensures NoneIndented(HookLines(sh))
  {
  }

  lemma GeneratedTextFree(c: char)
    requires c == '\n' || c == '\r'
    ensures c !in GeneratedText()
  {
  }

  lemma ChangesTextFree(c: char)
    requires c == '\n' || c == '\r'
    ensures c !in ChangesText()
  {
  }

  lemma EditTextFree(c: char)
    requires c == '\n' || c == '\r'
    ensures c !in EditText()
  {
  }

  // ----- The lines that carry data -----

  lemma HeaderFree(cfg: ResolvedConfig, count: nat, c: char)
    requires c == '\n' || c == '\r'
    requires ValidPlatform(cfg.device.platform) && ValidShell(cfg.device.shell) && LineSafe(cfg.revision)
    ensures FreeOf(HeaderLines("#", cfg, count), c)
  {
    hide GeneratedText, ChangesText, EditText, DeviceText, Itoa;
    GeneratedTextFree(c);
    ChangesTextFree(c);
    EditTextFree(c);
    assert c !in Itoa(count);
    DeviceTextFree(cfg, c);
  }

  lemma DeviceTextFree(cfg: ResolvedConfig, c: char)
    requires c == '\n' || c == '\r'
    requires ValidPlatform(cfg.device.platform) && ValidShell(cfg.device.shell)
    ensures c !in DeviceText(cfg)
  {
    hide SanitizeComment;
    SanitizeSafe(cfg.device.name);
    assert c !in cfg.device.platform && c !in cfg.device.shell;
  }

  lemma HeaderNotIndented(cfg: ResolvedConfig, count: nat)
    ensures |HeaderLines("#", cfg, count)| == 8
    ensures forall l :: l in HeaderLines("#", cfg, count) ==> "#" <= l
    ensures NoneIndented(HeaderLines("#", cfg, count))
  {
    hide GeneratedText, ChangesText, EditText, DeviceText, RevisionText, Itoa;
  }

  lemma AssignFree(names: seq<string>, sh: Shell, c: char)
    requires c == '\n' || c == '\r'
    requires ValidNames(names, sh)
    ensures c !in Quote(Join(names, " ")) && c !in AssignLine(names)
  {
    hide Quote, ManagedVar, Join, Name;
    forall n | n in names ensures c !in n {
      NameIsWord(n, sh);
    }
    JoinFree(names, c);
    QuoteFree(Join(names, " "), c);
    VarLine(c);
  }

  lemma AliasLineFree(a: Alias, sh: Shell, c: char)
    requires c == '\n' || c == '\r'
    requires AliasOk(a, sh)
    ensures c !in AliasLine(a)
  {
    hide Quote, Name, Command, Description;
    NameIsWord(a.name, sh);
    CommandIsOneLine(a.command);
    QuoteFree(a.command, c);
  }

  lemma ParagraphLines(a: Alias, sh: Shell, c: char)
    requires c == '\n' || c == '\r'
    requires AliasOk(a, sh)
    ensures FreeOf(Paragraph(a), c) && NoneIndented(Paragraph(a))
  {
    hide AliasOk, SanitizeComment, Quote;
    SanitizeSafe(a.description);
    AliasLineFree(a, sh, c);
  }

  lemma {:induction false} ParagraphsLines(aliases: seq<Alias>, sh: Shell, c: char)
    requires c == '\n' || c == '\r'
    requires AliasesOk(aliases, sh)
    ensures FreeOf(Paragraphs(aliases), c) && NoneIndented(Paragraphs(aliases))
  {
    hide AliasOk, Paragraph, Indented;
    if aliases != [] {
      assert aliases[0] in aliases;
      ParagraphLines(aliases[0], sh, c);
      ParagraphsLines(aliases[1..], sh, c);
    }
  }

  lemma BodyFree(sorted: seq<Alias>, sh: Shell, c: char)
    requires c == '\n' || c == '\r'
    requires AliasesOk(sorted, sh)
    ensures FreeOf(BodyLines(sorted, sh), c) && NoneIndented(BodyLines(sorted, sh))
  {
    hide AliasOk, Paragraphs, HookLines, ManagedBlock, UnsetLine, Quote, Names, AssignLine;
    NamesValid(sorted, sh);
    AssignFree(Names(sorted), sh, c);
    BlockFree(c);
    BlockNotIndented();
    HookFree(sh, c);
    HookNotIndented(sh);
    ParagraphsLines(sorted, sh, c);
    AssignNotIndented(Names(sorted));
  }

  lemma AssignNotIndented(names: seq<string>)
    ensures !Indented(AssignLine(names)) && Indented("  " + AssignLine(names))
    ensures "  " + ManagedVar() + "=" <= "  " + AssignLine(names)
    ensures ("  " + AssignLine(names))[|"  " + ManagedVar() + "="|..] == Quote(Join(names, " "))
  {
    hide ManagedVar, Quote;
    VarLine('\n');
  }

  // ----- The file -----

  /** Every line of a generated file, migrated or not, is free of line breaks. */
  lemma FileFree(cfg: ResolvedConfig, migrated: seq<string>, c: char)
    requires c == '\n' || c == '\r'
    requires Renderable(cfg) && ValidNames(migrated, cfg.device.shell)
    ensures FreeOf(FileLines(cfg, migrated), c)
  {
    hide Guard, ConfigIssues, AliasOk, HeaderLines, BodyLines, SortAliases, IfUnsetLine, AssignLine, IsPosix;
    CleanAliases(cfg);
    var sorted := SortAliases(cfg.aliases);
    HeaderFree(cfg, |sorted|, c);
    BodyFree(sorted, cfg.device.shell, c);
    BlockFree(c);
    AssignFree(migrated, cfg.device.shell, c);
  }

  /** Where the fixed lines stand: eight banner lines, a blank one, then the migration block of
      three lines if there is one, then the managed block. */
  lemma FileShape(cfg: ResolvedConfig, migrated: seq<string>)
    ensures var lines := FileLines(cfg, migrated);
            && |lines| > 12 && lines[8] == ""
            && lines[..8] == HeaderLines("#", cfg, |SortAliases(cfg.aliases)|)
            && (migrated == [] ==> lines[9] == GuardLine())
            && (migrated != [] ==> lines[9..12] == [IfUnsetLine(), "  " + AssignLine(migrated), "fi"])
            && (migrated != [] ==> lines[12] == GuardLine())
            && lines[9 + |MigrationLines(migrated)|..] == BodyLines(SortAliases(cfg.aliases), cfg.device.shell)
  {
    hide HeaderLines, SortAliases, Paragraphs, HookLines, AssignLine, UnsetLine, IfUnsetLine, GuardLine, ForLine,
         UnaliasLine;
    HeaderNotIndented(cfg, |SortAliases(cfg.aliases)|);
  }

  /** Only the migration block has a line that starts like its assignment. */
  lemma FileIndented(cfg: ResolvedConfig, migrated: seq<string>)
    requires Renderable(cfg)
    ensures forall j :: 0 <= j < |FileLines(cfg, migrated)| && !(migrated != [] && j == 10) ==>
              !Indented(FileLines(cfg, migrated)[j])
  {
    hide Guard, ConfigIssues, AliasOk, HeaderLines, BodyLines, SortAliases, IfUnsetLine, AssignLine, IsPosix,
         Indented;
    CleanAliases(cfg);
    var sorted := SortAliases(cfg.aliases);
    HeaderNotIndented(cfg, |sorted|);
    BodyFree(sorted, cfg.device.shell, '\n');
    BlockNotIndented();
    assert !Indented("") by { EmptyNotIndented(); }
  }

  lemma EmptyNotIndented()
    ensures !Indented("")
  {
  }

  /** The third to fifth line of a file, read back from its text, show the device, the revision and the number
      of aliases. */
  lemma BannerShows(cfg: ResolvedConfig, migrated: seq<string>)
    requires Renderable(cfg) && ValidNames(migrated, cfg.device.shell)
    ensures var lines := SplitLines(FileText(cfg, migrated)); var d := cfg.device;
            var name := SanitizeComment(d.name);
            && |lines| > 5
            && lines[2] == (if name == "" then "# Device:   " + d.platform + " / " + d.shell
                            else "# Device:   " + name + " (" + d.platform + " / " + d.shell + ")")
            && lines[3] == "# Revision: " + (if cfg.revision == "" then "(unknown)" else cfg.revision)
            && lines[4] == "# Aliases:  " + Itoa(|cfg.aliases|)
  {
    hide Guard, IsPosix, FileLines, SortAliases, GeneratedText, ChangesText, EditText, Itoa, SanitizeComment, Unlines,
         SplitLines;
    var lines, header := FileLines(cfg, migrated), HeaderLines("#", cfg, |SortAliases(cfg.aliases)|);
    FileFree(cfg, migrated, '\n');
    SplitUnlines(lines);
    FileShape(cfg, migrated);
    SortSorts(cfg.aliases);
    assert lines[2] == lines[..8][2] && lines[3] == lines[..8][3] && lines[4] == lines[..8][4];
    BannerTexts(cfg, |cfg.aliases|);
  }

  lemma BannerTexts(cfg: ResolvedConfig, count: nat)
    ensures var d := cfg.device; var name := SanitizeComment(d.name);
            && CommentLine("#", DeviceText(cfg)) == (if name == "" then "# Device:   " + d.platform + " / " + d.shell
                            else "# Device:   " + name + " (" + d.platform + " / " + d.shell + ")")
            && CommentLine("#", RevisionText(cfg))
               == "# Revision: " + (if cfg.revision == "" then "(unknown)" else cfg.revision)
            && CommentLine("#", "Aliases:  " + Itoa(count)) == "# Aliases:  " + Itoa(count)
  {
    hide SanitizeComment, Itoa;
    DeviceShown(cfg);
    assert "#" + " " + "Revision: " == "# Revision: " && "#" + " " + "Aliases:  " == "# Aliases:  ";
    Assoc("#" + " ", "Aliases:  ", Itoa(count));
    Assoc("#" + " ", "Revision: ", if cfg.revision == "" then "(unknown)" else cfg.revision);
  }

  lemma DeviceShown(cfg: ResolvedConfig)
    ensures var d := cfg.device; var name := SanitizeComment(d.name);
            CommentLine("#", DeviceText(cfg)) == if name == "" then "# Device:   " + d.platform + " / " + d.shell
                            else "# Device:   " + name + " (" + d.platform + " / " + d.shell + ")"
  {
    hide SanitizeComment;
    assert "#" + " " + "Device:   " == "# Device:   ";
  }
}
