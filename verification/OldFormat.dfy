/** The strict parser of the old file format accepts what the old renderer wrote, and returns the
    names in order. */
module OldFormat {
  import opened Text
  import opened Domain
  import opened Validate
  import opened Posix
  import opened FileFacts
  import opened Legacy

  /** A file in the old format: the banner and the alias paragraphs, without the managed block. */
  function LegacyText(cfg: ResolvedConfig): string {
    var sorted := SortAliases(cfg.aliases);
    Unlines(HeaderLines("#", cfg, |sorted|) + Paragraphs(sorted))
  }

  /** No printed description contains a control character. */
  predicate PlainDescriptions(aliases: seq<Alias>) {
    forall a :: a in aliases ==> !HasControl(SanitizeComment(a.description))
  }

  // ----- The banner -----

  lemma Hash2(x: string, y: string)
    ensures "#" + " " + (x + y) == "# " + x + y
  {
  }

  lemma Hash3(x: string, y: string, z: string)
    ensures "#" + " " + (x + y + z) == "# " + x + y + z
  {
  }

  lemma GeneratedLine()
    ensures CommentLine("#", GeneratedText()) == HeaderLine()
  {
    Hash2("Generated by AliasDeck.", " Do not edit.");
  }

  lemma ChangesLineSame()
    ensures CommentLine("#", ChangesText()) == ChangesLine()
  {
    Hash3("Changes made to this file", " are lost on the next ", "`aliasdeck sync`.");
  }

  lemma EditLineSame()
    ensures CommentLine("#", EditText()) == EditLine()
  {
    Hash2("Edit your aliases.yaml, or use", " the AliasDeck web UI.");
  }

  lemma SuffixOf(a: string, b: string)
    ensures HasSuffix(a + b, b)
  {
  }

  /** A device line that shows `shown` and ends in one of the two forms is valid if `shown` is. */
  lemma ShownDevice(front: string, back: string, sh: Shell)
    requires back == " / " + sh || back == " / " + sh + ")"
    ensures ValidDeviceLine("# Device:   " + (front + back), sh) <==> !HasControl(front + back)
  {
    hide HasSuffix, HasControl;
    var line := "# Device:   " + (front + back);
    assert line == "# Device:   " + front + back;
    SuffixOf("# Device:   " + front, back);
    assert line[12..] == front + back;
  }

  lemma ControlSplit(a: string, b: string)
    ensures HasControl(a + b) <==> HasControl(a) || HasControl(b)
  {
    hide IsControl;
    if c :| c in a + b && IsControl(c) {
      assert c in a || c in b;
    }
    if c :| (c in a || c in b) && IsControl(c) {
      assert c in a + b;
    }
  }

  lemma NamedShape(name: string, platform: string, shell: string)
    ensures "#" + " " + ("Device:   " + name + " (" + platform + " / " + shell + ")")
            == "# Device:   " + (name + " (" + platform + (" / " + shell + ")"))
  {
    assert "#" + " " + "Device:   " == "# Device:   ";
  }

  lemma UnnamedShape(platform: string, shell: string)
    ensures "#" + " " + ("Device:   " + platform + " / " + shell) == "# Device:   " + (platform + (" / " + shell))
  {
    assert "#" + " " + "Device:   " == "# Device:   ";
  }

  lemma DeviceLineValid(cfg: ResolvedConfig)
    requires ValidPlatform(cfg.device.platform) && ValidShell(cfg.device.shell)
    ensures ValidDeviceLine(CommentLine("#", DeviceText(cfg)), cfg.device.shell)
            <==> !HasControl(SanitizeComment(cfg.device.name))
  {
    hide SanitizeComment, ValidPlatform, ValidShell, ValidDeviceLine, HasControl;
    var name, platform, shell := SanitizeComment(cfg.device.name), cfg.device.platform, cfg.device.shell;
    KnownNamesPlain(platform, shell);
    if name != "" {
      var front, back := name + " (" + platform, " / " + shell + ")";
      NamedShape(name, platform, shell);
      ShownDevice(front, back, shell);
      ControlSplit(front, back);
      ControlSplit(name, " (" + platform);
      assert front == name + (" (" + platform);
    } else {
      UnnamedShape(platform, shell);
      ShownDevice(platform, " / " + shell, shell);
      ControlSplit(platform, " / " + shell);
      EmptyPlain();
    }
  }

  lemma KnownNamesPlain(platform: string, shell: string)
    requires ValidPlatform(platform) && ValidShell(shell)
    ensures !HasControl(platform) && !HasControl(" (" + platform)
    ensures !HasControl(" / " + shell) && !HasControl(" / " + shell + ")")
  {
    hide IsControl;
    PlainCharacters();
    assert forall c :: c in platform || c in shell ==> 'a' <= c <= 'z';
  }

  lemma PlainCharacters()
    ensures forall c :: 'a' <= c <= 'z' || c in " (/)" ==> !IsControl(c)
  {
  }

  lemma CountLineParses(n: nat)
    requires n <= MAX_ALIASES
    ensures ParseCount(CommentLine("#", "Aliases:  " + Itoa(n))) == Some(n)
  {
    hide Itoa, Atoi;
    AtoiItoa(n);
    assert CommentLine("#", "Aliases:  " + Itoa(n)) == "# Aliases:  " + Itoa(n);
  }

  lemma RevisionLineValid(cfg: ResolvedConfig)
    requires IsRevision(cfg.revision)
    ensures ValidRevisionLine(CommentLine("#", RevisionText(cfg)))
  {
    assert CommentLine("#", RevisionText(cfg)) == "# Revision: " + cfg.revision;
  }

  lemma BannerValid(cfg: ResolvedConfig, rest: seq<string>)
    requires ValidPlatform(cfg.device.platform) && ValidShell(cfg.device.shell) && IsRevision(cfg.revision)
    requires |SortAliases(cfg.aliases)| <= MAX_ALIASES
    ensures var lines := HeaderLines("#", cfg, |SortAliases(cfg.aliases)|) + rest;
            && |lines| >= 8 && lines[8..] == rest
            && (ValidBanner(lines, cfg.device.shell) <==> !HasControl(SanitizeComment(cfg.device.name)))
            && ParseCount(lines[4]) == Some(|SortAliases(cfg.aliases)|)
  {
    hide GeneratedText, ChangesText, EditText, HeaderLine, ChangesLine, EditLine, DeviceText, RevisionText,
         SanitizeComment, ValidDeviceLine, ValidRevisionLine, ParseCount, SortAliases, Itoa, ValidPlatform,
         ValidShell, HasControl, IsRevision;
    GeneratedLine();
    ChangesLineSame();
    EditLineSame();
    DeviceLineValid(cfg);
    RevisionLineValid(cfg);
    CountLineParses(|SortAliases(cfg.aliases)|);
  }

  // ----- The paragraphs -----

  /** An alias line parses to its name, and is not taken for a comment. */
  lemma AliasLineParses(a: Alias, sh: Shell)
    requires AliasOk(a, sh)
    ensures ParseAliasLine(AliasLine(a), sh) == Some(a.name) && !("# " <= AliasLine(a))
  {
    hide Name, Command, Description, Quote, DecodeQuoted;
    NameIsWord(a.name, sh);
    var rest := a.name + "=" + Quote(a.command);
    assert AliasLine(a) == "alias " + rest;
    IndexCharIs(a.name, '=', Quote(a.command));
    assert rest[..|a.name|] == a.name && rest[|a.name| + 1..] == Quote(a.command);
    DecodeExactlyQuoted(Quote(a.command), a.command);
    assert AliasLine(a)[0] == 'a';
  }

  lemma DescriptionParses(a: Alias)
    requires SanitizeComment(a.description) != ""
    ensures ValidDescription(SanitizeComment(a.description)) <==> !HasControl(SanitizeComment(a.description))
  {
    hide TrimLeftSpace, TrimRightSpace, IsSpace, CleanControls, HasControl;
    TrimmedStays(CleanControls(a.description));
  }

  lemma TrimmedStays(s: string)
    ensures TrimSpace(TrimSpace(s)) == TrimSpace(s)
  {
    hide IsSpace;
    TrimSpaceKeeps(TrimSpace(s));
  }

  /** One paragraph in front of at least one more line is read as one name. */
  lemma ParagraphParses(a: Alias, rest: seq<string>, count: nat, last: Option<string>, sh: Shell)
    requires AliasOk(a, sh) && rest != []
    requires last.Some? ==> Less(last.value, a.name)
    ensures ParseParagraphs(Paragraph(a) + rest, count + 1, last, sh) ==
            if HasControl(SanitizeComment(a.description)) then None
            else Behind([a.name], ParseParagraphs(rest, count, Some(a.name), sh))
  {
    hide AliasOk, AliasLine, SanitizeComment, ParseAliasLine, ValidDescription, HasControl, Less;
    AliasLineParses(a, sh);
    var d := SanitizeComment(a.description);
    var lines := Paragraph(a) + rest;
    if d == "" {
      assert lines == ["", AliasLine(a)] + rest;
      assert lines[1..][1..] == rest;
      assert !HasControl(d) by { EmptyPlain(); }
    } else {
      DescriptionParses(a);
      assert lines == ["", "# " + d, AliasLine(a)] + rest;
      assert lines[2..][1..] == rest && lines[1][2..] == d;
    }
  }

  lemma EmptyPlain()
    ensures !HasControl("")
  {
  }

  ghost predicate Increasing(aliases: seq<Alias>) {
    forall i :: 0 < i < |aliases| ==> Less(aliases[i - 1].name, aliases[i].name)
  }

  lemma {:induction false} ParagraphsParse(aliases: seq<Alias>, last: Option<string>, sh: Shell)
    requires AliasesOk(aliases, sh) && Increasing(aliases)
    requires last.Some? && aliases != [] ==> Less(last.value, aliases[0].name)
    ensures ParseParagraphs(Paragraphs(aliases) + [""], |aliases|, last, sh) ==
            if PlainDescriptions(aliases) then Some(Names(aliases)) else None
  {
    hide AliasOk, Paragraph, Less, HasControl, SanitizeComment;
    if aliases == [] {
      assert Paragraphs(aliases) + [""] == [""];
    } else {
      var a, rest := aliases[0], aliases[1..];
      assert a in aliases && aliases == [a] + rest;
      ParagraphsParse(rest, Some(a.name), sh);
      Assoc(Paragraph(a), Paragraphs(rest), [""]);
      ParagraphParses(a, Paragraphs(rest) + [""], |rest|, last, sh);
    }
  }

  /** In bash and zsh an accepted configuration sorts into strictly increasing names. */
  lemma SortedIncreasing(cfg: ResolvedConfig)
    requires Guard(cfg) && IsPosix(cfg.device.shell)
    ensures Increasing(SortAliases(cfg.aliases)) && DistinctNames(SortAliases(cfg.aliases))
    ensures DistinctNames(cfg.aliases)
  {
    hide AliasOk, ConfigIssues, SortAliases, Less;
    GuardMeansClean(cfg);
    var sorted := SortAliases(cfg.aliases);
    assert DistinctNames(cfg.aliases) by {
      forall i, j | 0 <= i < j < |cfg.aliases| ensures cfg.aliases[i].name != cfg.aliases[j].name {
        assert DuplicateKey(cfg.aliases[i].name, cfg.device.shell)
               != DuplicateKey(cfg.aliases[j].name, cfg.device.shell);
      }
    }
    SortSorts(cfg.aliases);
    DistinctPermutation(cfg.aliases, sorted);
    forall i | 0 < i < |sorted| ensures Less(sorted[i - 1].name, sorted[i].name) {
      LessTotal(sorted[i - 1].name, sorted[i].name);
    }
  }

  /** The old-format parser recognises the old format of every accepted configuration whose device
      name and descriptions are free of control characters, and rejects every other one. */
  lemma LegacyRecognised(cfg: ResolvedConfig)
    requires Renderable(cfg) && IsRevision(cfg.revision)
    ensures ParseLegacy(LegacyText(cfg), cfg.device.shell) ==
            if !HasControl(SanitizeComment(cfg.device.name)) && PlainDescriptions(SortAliases(cfg.aliases))
            then Some(Names(SortAliases(cfg.aliases))) else None
  {
    hide AliasOk, Guard, HeaderLines, Paragraphs, SortAliases, SanitizeComment, PlainDescriptions, HasControl,
         ParseCount, ValidBanner, ParseParagraphs, Unlines, IsPosix, Less, ValidPlatform, ValidShell, IsRevision;
    var sorted := SortAliases(cfg.aliases);
    CleanAliases(cfg);
    SortedIncreasing(cfg);
    var lines := HeaderLines("#", cfg, |sorted|) + Paragraphs(sorted);
    LegacyLinesFree(cfg, '\n');
    LegacyLinesFree(cfg, '\r');
    SplitUnlines(lines);
    BannerValid(cfg, Paragraphs(sorted) + [""]);
    assert lines + [""] == HeaderLines("#", cfg, |sorted|) + (Paragraphs(sorted) + [""]);
    UnlinesShape(lines, '\r');
    ParagraphsParse(sorted, None, cfg.device.shell);
  }

  lemma LegacyLinesFree(cfg: ResolvedConfig, c: char)
    requires c == '\n' || c == '\r'
    requires Renderable(cfg)
    ensures FreeOf(HeaderLines("#", cfg, |SortAliases(cfg.aliases)|) + Paragraphs(SortAliases(cfg.aliases)), c)
    ensures |HeaderLines("#", cfg, |SortAliases(cfg.aliases)|)| == 8
  {
    hide AliasOk, Guard, HeaderLines, Paragraphs, SortAliases, IsPosix, ValidPlatform, ValidShell;
    CleanAliases(cfg);
    HeaderFree(cfg, |SortAliases(cfg.aliases)|, c);
    HeaderNotIndented(cfg, |SortAliases(cfg.aliases)|);
    ParagraphsLines(SortAliases(cfg.aliases), cfg.device.shell, c);
  }

  lemma {:induction false} UnlinesShape(lines: seq<string>, c: char)
    requires lines != [] && c != '\n' && forall l :: l in lines ==> c !in l
    ensures Unlines(lines) != "" && HasSuffix(Unlines(lines), "\n") && c !in Unlines(lines)
  {
    if |lines| == 1 {
      assert Unlines(lines) == lines[0] + "\n" + "";
    } else {
      UnlinesShape(lines[1..], c);
      assert Unlines(lines) == lines[0] + "\n" + Unlines(lines[1..]);
    }
  }
}
