/** Importing a file that AliasDeck itself generated: the renderer, the parser and the merge together. */
module OwnFile {
  import opened Text
  import opened Domain
  import opened Validate
  import opened Posix
  import opened FileFacts
  import opened Importer
  import opened ImportMerge
  import opened OldFormat
  import opened RoundTrip

  /** What an import makes of an alias: its name and command, enabled and untargeted. */
  function Plain(aliases: seq<Alias>): (plain: seq<Alias>)
    ensures |plain| == |aliases|
  {
    if aliases == [] then []
    else
      var a := aliases[0];
      [Alias(a.name, a.name, a.command, "", true, [], [], [], [], [])] + Plain(aliases[1..])
  }

  ghost predicate Reads(found: seq<Found>, aliases: seq<Alias>) {
    |found| == |aliases|
    && forall i :: 0 <= i < |aliases| ==>
         found[i].name == aliases[i].name && found[i].command == aliases[i].command && !found[i].noted
  }

  lemma {:induction false} PairsAt(aliases: seq<Alias>)
    ensures |Pairs(aliases)| == |aliases|
    ensures forall i :: 0 <= i < |aliases| ==> Pairs(aliases)[i] == (aliases[i].name, aliases[i].command)
  {
    if aliases != [] {
      PairsAt(aliases[1..]);
    }
  }

  lemma YieldsReads(p: Parsed, aliases: seq<Alias>)
    requires Yields(p, Pairs(aliases))
    ensures p.skipped == [] && Reads(p.found, aliases)
  {
    PairsAt(aliases);
  }

  lemma HeadOnce(found: seq<Found>, aliases: seq<Alias>)
    requires Reads(found, aliases) && DistinctNames(aliases) && found != []
    ensures found[0].name !in Defined(found[1..])
  {
    var tail := found[1..];
    DefinedAt(tail, found[0].name);
    forall k | 0 <= k < |tail| ensures tail[k].name != found[0].name {
      assert aliases[0].name != aliases[k + 1].name;
    }
  }

  /** Distinct, accepted definitions that the document does not have are all added, in order. */
  lemma {:induction false} AllAdded(existing: seq<Alias>, found: seq<Found>, aliases: seq<Alias>, sh: Shell)
    requires Reads(found, aliases) && DistinctNames(aliases) && AliasesOk(aliases, sh)
    requires forall a :: a in aliases ==> LastCommand(existing, a.name) == None
    ensures Verdicts(existing, found, sh) == NO_REPORT.(added := Plain(aliases))
  {
    hide Name, Command, Description, LastCommand, ValidPlatform, ValidShell;
    if found != [] {
      var rest := aliases[1..];
      forall i, j | 0 <= i < j < |rest| ensures rest[i].name != rest[j].name {
        assert rest[i] == aliases[i + 1] && rest[j] == aliases[j + 1];
      }
      AllAdded(existing, found[1..], rest, sh);
      HeadOnce(found, aliases);
      assert aliases[0] in aliases;
    }
  }

  /** Distinct definitions that the document already has are all recognised, and nothing is added. */
  lemma {:induction false} AllKept(existing: seq<Alias>, found: seq<Found>, aliases: seq<Alias>, sh: Shell)
    requires Reads(found, aliases) && DistinctNames(aliases) && AliasesOk(aliases, sh)
    requires forall a :: a in aliases ==> LastCommand(existing, a.name) == Some(a.command)
    ensures Verdicts(existing, found, sh) == NO_REPORT.(kept := Names(aliases))
  {
    hide Name, Command, Description, LastCommand, ValidPlatform, ValidShell;
    if found != [] {
      var rest := aliases[1..];
      forall i, j | 0 <= i < j < |rest| ensures rest[i].name != rest[j].name {
        assert rest[i] == aliases[i + 1] && rest[j] == aliases[j + 1];
      }
      AllKept(existing, found[1..], rest, sh);
      HeadOnce(found, aliases);
      assert aliases[0] in aliases;
    }
  }

  lemma NothingRedefined(found: seq<Found>, aliases: seq<Alias>)
    requires Reads(found, aliases) && DistinctNames(aliases)
    ensures Redefinitions(found) == []
  {
    hide Redefinitions;
    forall i, j ensures !NextDefinition(found, i, j) {
      if 0 <= i < j < |found| {
        assert aliases[i].name != aliases[j].name;
      }
    }
    var r := Redefinitions(found);
    forall s ensures s !in r {
      RedefinitionsExactly(found, s);
    }
    HasFirst(r);
  }

  lemma HasFirst(r: seq<Skipped>)
    ensures r == [] || exists s :: s in r
  {
    if r != [] {
      assert r[0] in r;
    }
  }

  lemma OwnParsed(cfg: ResolvedConfig, migrated: seq<string>)
    requires Renderable(cfg) && ValidNames(migrated, cfg.device.shell) && NoDisguise(SortAliases(cfg.aliases))
    ensures var p, sorted := ParsedFile(FileText(cfg, migrated)), SortAliases(cfg.aliases);
            p.skipped == [] && Reads(p.found, sorted) && DistinctNames(sorted) && AliasesOk(sorted, cfg.device.shell)
            && Redefinitions(p.found) == [] && |sorted| <= MAX_ALIASES
  {
    hide Renderable, FileText, SortAliases, ParsedFile, NoDisguise, Redefinitions, AliasesOk, DistinctNames, Guard,
         Reads, Yields, Pairs, IsPosix, ValidNames, Increasing, ValidPlatform, ValidShell, Names;
    var p, sorted := ParsedFile(FileText(cfg, migrated)), SortAliases(cfg.aliases);
    FileRoundTrip(cfg, migrated);
    YieldsReads(p, sorted);
    assert Guard(cfg) && IsPosix(cfg.device.shell) by {
      RenderableGuard(cfg);
    }
    CleanAliases(cfg);
    SortedIncreasing(cfg);
    NothingRedefined(p.found, sorted);
  }

  lemma RenderableGuard(cfg: ResolvedConfig)
    requires Renderable(cfg)
    ensures Guard(cfg) && IsPosix(cfg.device.shell)
  {
  }

  /** Importing a generated file into an empty document recovers every alias, in name order. */
  lemma OwnFileRecovered(cfg: ResolvedConfig, migrated: seq<string>)
    requires Renderable(cfg) && ValidNames(migrated, cfg.device.shell) && NoDisguise(SortAliases(cfg.aliases))
    ensures AfterImport([], FileText(cfg, migrated), cfg.device.shell, true)
            == (Plain(SortAliases(cfg.aliases)),
                NO_REPORT.(added := Plain(SortAliases(cfg.aliases)), written := cfg.aliases != []), None)
  {
    hide Renderable, FileText, SortAliases, ParsedFile, NoDisguise, Redefinitions, Verdicts, Names, AliasesOk, Reads,
         DistinctNames, ValidNames, Plain, LastCommand;
    NoCommand();
    OwnParsed(cfg, migrated);
    var p, sorted := ParsedFile(FileText(cfg, migrated)), SortAliases(cfg.aliases);
    AllAdded([], p.found, sorted, cfg.device.shell);
    JoinNothing(NO_REPORT.(added := Plain(sorted)));
    SortSorts(cfg.aliases);
    assert [] + Plain(sorted) == Plain(sorted);
  }

  lemma NoCommand()
    ensures forall name :: LastCommand([], name) == None
  {
  }

  /** Importing it into a document that already gives every alias its command changes nothing, whatever
      else the document holds. */
  lemma OwnFileKept(cfg: ResolvedConfig, migrated: seq<string>, existing: seq<Alias>)
    requires Renderable(cfg) && ValidNames(migrated, cfg.device.shell) && NoDisguise(SortAliases(cfg.aliases))
    requires forall a :: a in cfg.aliases ==> LastCommand(existing, a.name) == Some(a.command)
    ensures var (after, report, _) := AfterImport(existing, FileText(cfg, migrated), cfg.device.shell, true);
            after == existing && report == NO_REPORT.(kept := Names(SortAliases(cfg.aliases)))
  {
    hide Renderable, FileText, SortAliases, ParsedFile, NoDisguise, Redefinitions, Verdicts, LastCommand, Names,
         AliasesOk, Reads, DistinctNames, ValidNames;
    OwnParsed(cfg, migrated);
    var p, sorted := ParsedFile(FileText(cfg, migrated)), SortAliases(cfg.aliases);
    SortSorts(cfg.aliases);
    forall a | a in sorted ensures LastCommand(existing, a.name) == Some(a.command) {
      assert a in multiset(sorted);
    }
    AllKept(existing, p.found, sorted, cfg.device.shell);
    JoinNothing(NO_REPORT.(kept := Names(sorted)));
  }
}
