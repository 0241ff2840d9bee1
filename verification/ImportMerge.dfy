/** Merging the definitions of a startup file into the user's own aliases
    (`internal/app/import.go`). */
module ImportMerge {
  import opened Text
  import opened Domain
  import opened Importer
  import P = Posix
  import V = Validate

  datatype Conflict = Conflict(name: string, line: nat, existing: string, incoming: string)

  datatype Note = Note(name: string, line: nat)

  /** What became of the definitions; `written` is set when the document was replaced. */
  datatype Report = Report(added: seq<Alias>, kept: seq<string>, conflicts: seq<Conflict>, notes: seq<Note>,
                           skipped: seq<Skipped>, written: bool)

  const NO_REPORT := Report([], [], [], [], [], false)

  function Join(a: Report, b: Report): Report {
    Report(a.added + b.added, a.kept + b.kept, a.conflicts + b.conflicts, a.notes + b.notes,
           a.skipped + b.skipped, a.written || b.written)
  }

  lemma JoinAssoc(a: Report, b: Report, c: Report)
    ensures Join(a, Join(b, c)) == Join(Join(a, b), c)
  {
    Assoc(a.added, b.added, c.added);
    Assoc(a.kept, b.kept, c.kept);
    Assoc(a.conflicts, b.conflicts, c.conflicts);
    Assoc(a.notes, b.notes, c.notes);
    Assoc(a.skipped, b.skipped, c.skipped);
  }

  lemma JoinNothing(a: Report)
    ensures Join(a, NO_REPORT) == a && Join(NO_REPORT, a) == a
  {
    assert a.added + [] == a.added && [] + a.added == a.added;
    assert a.kept + [] == a.kept && [] + a.kept == a.kept;
    assert a.conflicts + [] == a.conflicts && [] + a.conflicts == a.conflicts;
    assert a.notes + [] == a.notes && [] + a.notes == a.notes;
    assert a.skipped + [] == a.skipped && [] + a.skipped == a.skipped;
  }

  // ----- Definitions and the document -----

  function Defined(found: seq<Found>): (names: seq<string>)
    ensures |names| == |found|
  {
    if found == [] then [] else [found[0].name] + Defined(found[1..])
  }

  /** The index of the last definition of a name. */
  function Latest(found: seq<Found>, name: string): (r: Option<nat>)
    ensures r.Some? ==> r.value < |found|
  {
    if found == [] then None
    else if found[|found| - 1].name == name then Some(|found| - 1)
    else Latest(found[..|found| - 1], name)
  }

  lemma {:induction false} LatestIs(found: seq<Found>, name: string)
    ensures var r := Latest(found, name);
            && (r.Some? ==> found[r.value].name == name && forall k :: r.value < k < |found| ==> found[k].name != name)
            && (r.None? ==> forall k :: 0 <= k < |found| ==> found[k].name != name)
    decreases |found|
  {
    if found != [] {
      LatestIs(found[..|found| - 1], name);
    }
  }

  /** The command a document gives a name: of several aliases with the name, the last. */
  function LastCommand(aliases: seq<Alias>, name: string): Option<string> {
    if aliases == [] then None
    else if aliases[|aliases| - 1].name == name then Some(aliases[|aliases| - 1].command)
    else LastCommand(aliases[..|aliases| - 1], name)
  }

  function ImportedAlias(f: Found): Alias {
    Alias(f.name, f.name, f.command, "", true, [], [], [], [], [])
  }

  function Label(name: string): string {
    "alias " + name
  }

  // ----- The report, as a function -----

  /** One entry per definition that the file itself redefines. */
  function Redefinitions(found: seq<Found>): seq<Skipped> {
    if found == [] then []
    else
      var before, f := found[..|found| - 1], found[|found| - 1];
      Redefinitions(before) + Superseding(before, f)
  }

  function Superseding(before: seq<Found>, f: Found): seq<Skipped> {
    match Latest(before, f.name)
    case None => []
    case Some(p) => [Skipped(before[p].line, Label(before[p].name), Redefined(f.line))]
  }

  /** What becomes of the last definition of a name. */
  function Verdict(existing: seq<Alias>, f: Found, sh: Shell): Report {
    if V.Name(f.name, sh).Some? then NO_REPORT.(skipped := [Skipped(f.line, Label(f.name), NameRefused)])
    else if V.Command(f.command).Some? then NO_REPORT.(skipped := [Skipped(f.line, Label(f.name), CommandRefused)])
    else
      match LastCommand(existing, f.name)
      case Some(prior) =>
        if prior == f.command then NO_REPORT.(kept := [f.name])
        else NO_REPORT.(conflicts := [Conflict(f.name, f.line, prior, f.command)])
      case None =>
        NO_REPORT.(added := [ImportedAlias(f)], notes := if f.noted then [Note(f.name, f.line)] else [])
  }

  function Verdicts(existing: seq<Alias>, found: seq<Found>, sh: Shell): Report {
    if found == [] then NO_REPORT
    else if found[0].name in Defined(found[1..]) then Verdicts(existing, found[1..], sh)
    else Join(Verdict(existing, found[0], sh), Verdicts(existing, found[1..], sh))
  }

  datatype ImportError =
    | UnderServerSource | ShellUnsupported | StartupFileUnreadable | AliasesUnreadable | OverLimit | WriteFailed

  function Reported(existing: seq<Alias>, data: string, sh: Shell): Report {
    var parsed := ParsedFile(data);
    Join(NO_REPORT.(skipped := parsed.skipped + Redefinitions(parsed.found)), Verdicts(existing, parsed.found, sh))
  }

  /** The document, the report and the error after one import. */
  function AfterImport(existing: seq<Alias>, data: string, sh: Shell, write: bool)
    : (seq<Alias>, Report, Option<ImportError>)
  {
    var report := Reported(existing, data, sh);
    if |existing| + |report.added| > V.MAX_ALIASES then (existing, report, Some(OverLimit))
    else if !write || report.added == [] then (existing, report, None)
    else (existing + report.added, report.(written := true), None)
  }

  /** One call: whether the device gets its aliases from a server, whether a startup file was named, what
      reading it gave, whether aliases.yaml can be read (a missing one is the empty document), and
      whether writing it would fail. */
  datatype ImportCall = ImportCall(
    server: bool, named: bool, startup: Option<string>, readable: bool, sh: Shell, write: bool, writeFails: bool)

  function AfterCall(existing: seq<Alias>, c: ImportCall): (seq<Alias>, Report, Option<ImportError>) {
    if c.server then (existing, NO_REPORT, Some(UnderServerSource))
    else if !c.named && c.sh == POWERSHELL then (existing, NO_REPORT, Some(ShellUnsupported))
    else if c.startup.None? then (existing, NO_REPORT, Some(StartupFileUnreadable))
    else if !c.readable then (existing, NO_REPORT, Some(AliasesUnreadable))
    else
      var (merged, report, error) := AfterImport(existing, c.startup.value, c.sh, c.write);
      if merged != existing && c.writeFails then (existing, report.(written := false), Some(WriteFailed))
      else (merged, report, error)
  }

  // ----- The import in place -----

  /** The user's aliases.yaml, read and written as a whole. */
  class AliasesFile {
    var aliases: seq<Alias>

    constructor (aliases: seq<Alias>)
      ensures this.aliases == aliases
    {
      this.aliases := aliases;
    }

    method Import(c: ImportCall) returns (report: Report, error: Option<ImportError>)
      modifies this
      ensures (aliases, report, error) == AfterCall(old(aliases), c)
    {
      hide ParsedFile, Redefinitions, Verdicts;
      if c.server {
        return NO_REPORT, Some(UnderServerSource);
      }
      if !c.named && c.sh == POWERSHELL {
        return NO_REPORT, Some(ShellUnsupported);
      }
      if c.startup == None {
        return NO_REPORT, Some(StartupFileUnreadable);
      }
      if !c.readable {
        return NO_REPORT, Some(AliasesUnreadable);
      }
      var parsed := ParsePOSIX(c.startup.value);
      var winner, skipped := SelectWinners(parsed.found, parsed.skipped);
      report := Classify(aliases, parsed.found, c.sh, winner, NO_REPORT.(skipped := skipped));
      assert report == Reported(aliases, c.startup.value, c.sh);
      VerdictsUnwritten(aliases, parsed.found, c.sh);
      if |aliases| + |report.added| > V.MAX_ALIASES {
        return report, Some(OverLimit);
      }
      if !c.write || report.added == [] {
        return report, None;
      }
      assert |aliases + report.added| > |aliases|;
      if c.writeFails {
        return report, Some(WriteFailed);
      }
      aliases := aliases + report.added;
      report := report.(written := true);
      return report, None;
    }
  }

  /** The report says "written" exactly when the document changed, and then it grew by exactly the aliases
      reported as added; a call that fails or was not asked to write leaves it alone. */
  lemma WrittenMeansChanged(existing: seq<Alias>, c: ImportCall)
    ensures var (after, report, error) := AfterCall(existing, c);
            && (report.written <==> after != existing)
            && (report.written ==> c.write && error == None && after == existing + report.added)
            && (c.write && error == None && report.added != [] ==> report.written)
  {
    hide ParsedFile, Redefinitions, Verdicts;
    if c.startup.Some? {
      var data := c.startup.value;
      VerdictsUnwritten(existing, ParsedFile(data).found, c.sh);
      var added := Reported(existing, data, c.sh).added;
      assert added != [] ==> |existing + added| > |existing|;
    }
  }

  method SelectWinners(found: seq<Found>, before: seq<Skipped>)
    returns (winner: map<string, nat>, skipped: seq<Skipped>)
    ensures forall n :: n in winner <==> Latest(found, n).Some?
    ensures forall n :: n in winner ==> Latest(found, n) == Some(winner[n])
    ensures skipped == before + Redefinitions(found)
  {
    hide Latest, Redefinitions;
    winner, skipped := map[], before;
    SelectNone();
    for i := 0 to |found|
      invariant forall n :: n in winner <==> Latest(found[..i], n).Some?
      invariant forall n :: n in winner ==> Latest(found[..i], n) == Some(winner[n])
      invariant skipped == before + Redefinitions(found[..i])
    {
      var f := found[i];
      SelectOne(found, i);
      Assoc(before, Redefinitions(found[..i]), Superseding(found[..i], f));
      if f.name in winner {
        var p := found[winner[f.name]];
        skipped := skipped + [Skipped(p.line, Label(p.name), Redefined(f.line))];
      } else {
        assert skipped + [] == skipped;
      }
      winner := winner[f.name := i];
    }
    assert found[..|found|] == found;
  }

  lemma SelectNone()
    ensures Redefinitions([]) == [] && forall n :: Latest([], n) == None
  {
  }

  lemma SelectOne(found: seq<Found>, i: nat)
    requires i < |found|
    ensures Redefinitions(found[..i + 1]) == Redefinitions(found[..i]) + Superseding(found[..i], found[i])
    ensures forall n :: Latest(found[..i + 1], n) == if n == found[i].name then Some(i) else Latest(found[..i], n)
  {
    assert found[..i + 1][..i] == found[..i] && found[..i + 1][i] == found[i];
  }

  /** The names an alias list holds, as the program indexes them: the last alias of a name wins. */
  method IndexByName(aliases: seq<Alias>) returns (byName: map<string, Alias>)
    ensures forall n :: LastCommand(aliases, n) == if n in byName then Some(byName[n].command) else None
  {
    byName := map[];
    for i := 0 to |aliases|
      invariant forall n :: LastCommand(aliases[..i], n) == if n in byName then Some(byName[n].command) else None
    {
      assert aliases[..i + 1][..i] == aliases[..i] && aliases[..i + 1][i] == aliases[i];
      byName := byName[aliases[i].name := aliases[i]];
    }
    assert aliases[..|aliases|] == aliases;
  }

  method Classify(existing: seq<Alias>, found: seq<Found>, sh: Shell, winner: map<string, nat>, before: Report)
    returns (report: Report)
    requires forall n :: n in winner <==> Latest(found, n).Some?
    requires forall n :: n in winner ==> Latest(found, n) == Some(winner[n])
    ensures report == Join(before, Verdicts(existing, found, sh))
  {
    hide Join, V.Name, V.Command, LastCommand;
    var byName := IndexByName(existing);
    report := before;
    ghost var claimed: set<string> := {};
    assert found[0..] == found;
    for i := 0 to |found|
      invariant Join(report, Verdicts(existing, found[i..], sh)) == Join(before, Verdicts(existing, found, sh))
      invariant forall n :: n in claimed ==> n !in Defined(found[i..])
      invariant forall n :: n !in claimed ==>
        LastCommand(existing, n) == if n in byName then Some(byName[n].command) else None
    {
      var f := found[i];
      assert found[i..][0] == f && found[i..][1..] == found[i + 1..];
      WinnerIsLast(found, i);
      if winner[f.name] != i {
        continue;
      }
      JoinAssoc(report, Verdict(existing, f, sh), Verdicts(existing, found[i + 1..], sh));
      report, byName := Place(existing, report, byName, f, sh);
      claimed := claimed + {f.name};
    }
    JoinNothing(report);
  }

  /** One last definition: refused, already there, in conflict, or new and from then on taken. */
  method Place(ghost existing: seq<Alias>, before: Report, byName: map<string, Alias>, f: Found, sh: Shell)
    returns (report: Report, taken: map<string, Alias>)
    requires LastCommand(existing, f.name) == if f.name in byName then Some(byName[f.name].command) else None
    ensures report == Join(before, Verdict(existing, f, sh))
    ensures taken == byName || taken == byName[f.name := ImportedAlias(f)]
  {
    hide V.Name, V.Command, LastCommand;
    JoinNothing(before);
    report, taken := before, byName;
    if V.Name(f.name, sh).Some? {
      report := report.(skipped := report.skipped + [Skipped(f.line, Label(f.name), NameRefused)]);
    } else if V.Command(f.command).Some? {
      report := report.(skipped := report.skipped + [Skipped(f.line, Label(f.name), CommandRefused)]);
    } else if f.name in byName {
      var prior := byName[f.name];
      if prior.command == f.command {
        report := report.(kept := report.kept + [f.name]);
      } else {
        report := report.(conflicts := report.conflicts + [Conflict(f.name, f.line, prior.command, f.command)]);
      }
    } else {
      var imported := ImportedAlias(f);
      taken := byName[f.name := imported];
      report := report.(added := report.added + [imported]);
      if f.noted {
        report := report.(notes := report.notes + [Note(f.name, f.line)]);
      }
    }
  }

  lemma WinnerIsLast(found: seq<Found>, i: nat)
    requires i < |found|
    ensures Latest(found, found[i].name) == Some(i) <==> found[i].name !in Defined(found[i + 1..])
    ensures Latest(found, found[i].name).Some?
  {
    hide Latest, Defined;
    var tail, name := found[i + 1..], found[i].name;
    LatestIs(found, name);
    DefinedAt(tail, name);
    var w := Latest(found, name).value;
    if w == i {
      forall k | 0 <= k < |tail| ensures tail[k].name != name {
        assert tail[k] == found[i + 1 + k];
      }
    } else {
      assert tail[w - i - 1] == found[w];
    }
  }

  lemma {:induction false} DefinedAt(found: seq<Found>, name: string)
    ensures name in Defined(found) <==> exists k :: 0 <= k < |found| && found[k].name == name
  {
    if found != [] {
      DefinedAt(found[1..], name);
    }
  }

  // ----- What the merge means for the document -----

  lemma {:induction false} LastCommandAppend(a: seq<Alias>, b: seq<Alias>, name: string)
    ensures LastCommand(a + b, name)
            == if LastCommand(b, name).Some? then LastCommand(b, name) else LastCommand(a, name)
    decreases |b|
  {
    if b == [] {
      assert a + b == a;
    } else {
      assert (a + b)[..|a + b| - 1] == a + b[..|b| - 1];
      LastCommandAppend(a, b[..|b| - 1], name);
    }
  }

  lemma {:induction false} LatestFirst(f: Found, rest: seq<Found>, name: string)
    ensures Latest([f] + rest, name) ==
            match Latest(rest, name) case Some(k) => Some(k + 1) case None => if f.name == name then Some(0) else None
    decreases |rest|
  {
    var found := [f] + rest;
    if rest == [] {
      assert found[..0] == [];
    } else {
      assert found[..|found| - 1] == [f] + rest[..|rest| - 1];
      LatestFirst(f, rest[..|rest| - 1], name);
    }
  }

  predicate Accepted(f: Found, sh: Shell) {
    V.Name(f.name, sh).None? && V.Command(f.command).None?
  }

  /** The command the file would give a name that the document does not have. */
  function Incoming(found: seq<Found>, name: string, sh: Shell): Option<string> {
    match Latest(found, name)
    case None => None
    case Some(i) => if Accepted(found[i], sh) then Some(found[i].command) else None
  }

  lemma VerdictCommand(existing: seq<Alias>, f: Found, sh: Shell, name: string)
    ensures LastCommand(Verdict(existing, f, sh).added, name)
            == if LastCommand(existing, f.name).None? && Accepted(f, sh) && name == f.name
               then Some(f.command) else None
  {
    hide V.Name, V.Command;
    assert LastCommand([], name) == None;
    assert [ImportedAlias(f)][..0] == [];
  }

  lemma {:induction false} AddedCommand(existing: seq<Alias>, found: seq<Found>, sh: Shell, name: string)
    ensures LastCommand(Verdicts(existing, found, sh).added, name)
            == if LastCommand(existing, name).Some? then None else Incoming(found, name, sh)
  {
    hide Accepted, Verdict, Latest;
    if found == [] {
      LatestIs([], name);
      assert Verdicts(existing, found, sh).added == [];
    } else {
      hide LastCommand;
      var f, rest := found[0], found[1..];
      assert found == [f] + rest;
      AddedCommand(existing, rest, sh, name);
      LatestFirst(f, rest, name);
      LatestDefined(rest, f.name);
      if f.name !in Defined(rest) {
        VerdictCommand(existing, f, sh, name);
        LastCommandAppend(Verdict(existing, f, sh).added, Verdicts(existing, rest, sh).added, name);
      }
    }
  }

  lemma LatestDefined(found: seq<Found>, name: string)
    ensures Latest(found, name).Some? <==> name in Defined(found)
  {
    LatestIs(found, name);
    DefinedAt(found, name);
  }

  /** The merged document gives every name what it gave before, and a name it did not have what the last
      definition in the file gives it: nothing is replaced, and the shell's own reading of the file wins. */
  lemma MergedCommand(existing: seq<Alias>, data: string, sh: Shell, name: string)
    ensures var (merged, report, error) := AfterImport(existing, data, sh, true);
            && existing <= merged
            && (error == None ==>
                  LastCommand(merged, name) ==
                  if LastCommand(existing, name).Some? then LastCommand(existing, name)
                  else Incoming(ParsedFile(data).found, name, sh))
            && (error == Some(OverLimit) ==> merged == existing)
            && (|merged| <= V.MAX_ALIASES || merged == existing)
  {
    hide ParsedFile, Redefinitions, Incoming, Verdicts;
    var found := ParsedFile(data).found;
    var added := Verdicts(existing, found, sh).added;
    assert Reported(existing, data, sh).added == added by {
      assert [] + added == added;
    }
    LastCommandAppend(existing, added, name);
    AddedCommand(existing, found, sh, name);
    if added == [] {
      assert existing + added == existing;
    }
  }

  /** The names added are distinct, valid for the shell, and not in the document. */
  lemma {:induction false} AddedNames(existing: seq<Alias>, found: seq<Found>, sh: Shell)
    ensures var added := Verdicts(existing, found, sh).added;
            && (forall a :: a in added ==>
                  && a.name in Defined(found) && LastCommand(existing, a.name).None?
                  && V.Name(a.name, sh).None? && V.Command(a.command).None?)
            && forall i, j :: 0 <= i < j < |added| ==> added[i].name != added[j].name
  {
    hide V.Name, V.Command, LastCommand;
    if found != [] {
      AddedNames(existing, found[1..], sh);
    }
  }

  /** A conflict is reported exactly for a name whose accepted last definition in the file differs from
      what the document gives it. */
  lemma {:induction false} ConflictsExactly(existing: seq<Alias>, found: seq<Found>, sh: Shell, c: Conflict)
    ensures c in Verdicts(existing, found, sh).conflicts <==>
            && LastCommand(existing, c.name) == Some(c.existing) && c.existing != c.incoming
            && match Latest(found, c.name)
               case None => false
               case Some(i) => Accepted(found[i], sh) && found[i].command == c.incoming && found[i].line == c.line
  {
    hide LastCommand, Accepted, Verdict;
    if found != [] {
      hide Latest;
      var f, rest := found[0], found[1..];
      assert found == [f] + rest;
      ConflictsExactly(existing, rest, sh, c);
      LatestFirst(f, rest, c.name);
      LatestDefined(rest, f.name);
      LatestIs(rest, c.name);
      VerdictConflict(existing, f, sh, c);
    }
  }

  lemma VerdictConflict(existing: seq<Alias>, f: Found, sh: Shell, c: Conflict)
    ensures c in Verdict(existing, f, sh).conflicts <==>
            LastCommand(existing, c.name) == Some(c.existing) && c.existing != c.incoming
            && Accepted(f, sh) && f.name == c.name && f.command == c.incoming && f.line == c.line
  {
    hide LastCommand, V.Name, V.Command;
  }

  // ----- Who is reported where -----

  /** What a report says about one name, when `last` is the last definition of it: it is added with exactly
      this content, kept, noted or refused, each under its own condition. */
  ghost predicate Outcome(v: Report, existing: seq<Alias>, last: Option<Found>, sh: Shell, name: string, line: nat,
                          a: Alias)
  {
    var prior := LastCommand(existing, name);
    && (a.name == name ==>
          (a in v.added <==>
             last.Some? && Accepted(last.value, sh) && prior.None?
             && a == Alias(name, name, last.value.command, "", true, [], [], [], [], [])))
    && (name in v.kept <==> last.Some? && Accepted(last.value, sh) && prior == Some(last.value.command))
    && (Note(name, line) in v.notes <==>
          last.Some? && Accepted(last.value, sh) && prior.None? && last.value.noted && last.value.line == line)
    && (Skipped(line, Label(name), NameRefused) in v.skipped <==>
          last.Some? && last.value.line == line && V.Name(name, sh).Some?)
    && (Skipped(line, Label(name), CommandRefused) in v.skipped <==>
          last.Some? && last.value.line == line && V.Name(name, sh).None? && V.Command(last.value.command).Some?)
    && (forall r :: Skipped(line, Label(name), r) in v.skipped ==> r == NameRefused || r == CommandRefused)
  }

  lemma LabelInjective(a: string, b: string)
    ensures Label(a) == Label(b) <==> a == b
  {
    if Label(a) == Label(b) {
      assert Label(a)[6..] == a && Label(b)[6..] == b;
    }
  }

  lemma VerdictOutcome(existing: seq<Alias>, f: Found, sh: Shell, name: string, line: nat, a: Alias)
    ensures Outcome(Verdict(existing, f, sh), existing, if f.name == name then Some(f) else None, sh, name, line, a)
  {
    hide V.Name, V.Command, LastCommand, Label;
    LabelInjective(f.name, name);
  }

  lemma OutcomeJoin(existing: seq<Alias>, v1: Report, l1: Option<Found>, v2: Report, l2: Option<Found>, sh: Shell,
                    name: string, line: nat, a: Alias)
    requires Outcome(v1, existing, l1, sh, name, line, a) && Outcome(v2, existing, l2, sh, name, line, a)
    requires l1.None? || l2.None?
    ensures Outcome(Join(v1, v2), existing, if l1.Some? then l1 else l2, sh, name, line, a)
  {
    hide V.Name, V.Command, LastCommand, Label;
  }

  lemma OutcomeNothing(existing: seq<Alias>, sh: Shell, name: string, line: nat, a: Alias)
    ensures Outcome(NO_REPORT, existing, None, sh, name, line, a)
  {
  }

  /** The last definition of a name decides alone, and on exactly these conditions, where the name is
      reported. */
  lemma {:induction false} ReportedExactly(existing: seq<Alias>, found: seq<Found>, sh: Shell, name: string,
                                           line: nat, a: Alias)
    ensures var i := Latest(found, name);
            Outcome(Verdicts(existing, found, sh), existing, if i.Some? then Some(found[i.value]) else None, sh, name,
                    line, a)
  {
    hide Outcome, Verdict, Join, LastCommand;
    if found == [] {
      LatestIs(found, name);
      OutcomeNothing(existing, sh, name, line, a);
    } else {
      hide Latest;
      var f, rest := found[0], found[1..];
      assert found == [f] + rest;
      ReportedExactly(existing, rest, sh, name, line, a);
      LatestFirst(f, rest, name);
      LatestDefined(rest, f.name);
      if f.name !in Defined(rest) {
        var i := Latest(rest, name);
        VerdictOutcome(existing, f, sh, name, line, a);
        OutcomeJoin(existing, Verdict(existing, f, sh), if f.name == name then Some(f) else None,
                    Verdicts(existing, rest, sh), if i.Some? then Some(rest[i.value]) else None, sh, name, line, a);
      }
    }
  }

  /** When a call fails, and when it changes the document. */
  lemma CallExactly(existing: seq<Alias>, c: ImportCall)
    ensures var (after, report, error) := AfterCall(existing, c);
            var refused := c.server || (!c.named && c.sh == POWERSHELL) || c.startup.None? || !c.readable;
            && (refused ==> after == existing && error.Some? && report == NO_REPORT)
            && (!refused ==>
                  var found := ParsedFile(c.startup.value).found;
                  var added := Verdicts(existing, found, c.sh).added;
                  var fits := |existing| + |added| <= V.MAX_ALIASES;
                  && report.(written := false) == Reported(existing, c.startup.value, c.sh)
                  && report.added == added
                  && (error == None <==> fits && !(c.write && added != [] && c.writeFails))
                  && (after == existing + added <==> added == [] || (fits && c.write && !c.writeFails))
                  && (after == existing || after == existing + added))
    ensures var error := AfterCall(existing, c).2;
            && (error == Some(UnderServerSource) <==> c.server)
            && (error == Some(ShellUnsupported) <==> !c.server && !c.named && c.sh == POWERSHELL)
  {
    hide ParsedFile, Redefinitions, Verdicts, Join;
    if c.startup.Some? {
      var parsed := ParsedFile(c.startup.value);
      var skipped := parsed.skipped + Redefinitions(parsed.found);
      var verdicts := Verdicts(existing, parsed.found, c.sh);
      JoinedParts(skipped, verdicts);
      VerdictsUnwritten(existing, parsed.found, c.sh);
      assert verdicts.added != [] ==> |existing + verdicts.added| > |existing|;
      assert existing + [] == existing;
    }
  }

  // ----- Importing again -----

  /** One definition, judged again once its name has the command the merge gave it. */
  lemma VerdictAgain(existing: seq<Alias>, merged: seq<Alias>, f: Found, sh: Shell)
    requires LastCommand(merged, f.name)
             == if LastCommand(existing, f.name).Some? then LastCommand(existing, f.name)
                else if Accepted(f, sh) then Some(f.command) else None
    ensures Again(Verdict(existing, f, sh), Verdict(merged, f, sh))
  {
    hide V.Name, V.Command, LastCommand;
    assert P.Names([]) == [] && P.Names([ImportedAlias(f)]) == [f.name];
  }

  /** What was added is now already there, and everything else is reported as before. */
  ghost predicate Again(before: Report, again: Report) {
    && again.added == [] && again.notes == [] && again.conflicts == before.conflicts && again.skipped == before.skipped
    && multiset(again.kept) == multiset(before.kept) + multiset(P.Names(before.added))
    && again.written == before.written
  }

  lemma AgainJoin(b1: Report, a1: Report, b2: Report, a2: Report)
    requires Again(b1, a1) && Again(b2, a2)
    ensures Again(Join(b1, b2), Join(a1, a2))
  {
    NamesAppend(b1.added, b2.added);
    assert a1.added + a2.added == [] && a1.notes + a2.notes == [];
  }

  lemma {:induction false} AgainFrom(existing: seq<Alias>, added: seq<Alias>, whole: seq<Found>, sh: Shell, i: nat)
    requires i <= |whole| && added == Verdicts(existing, whole, sh).added
    ensures Again(Verdicts(existing, whole[i..], sh), Verdicts(existing + added, whole[i..], sh))
    decreases |whole| - i
  {
    hide V.Name, V.Command, LastCommand, Verdict, Again, Join;
    if i == |whole| {
      assert Again(NO_REPORT, NO_REPORT) by {
        NothingAgain();
      }
    } else {
      var f, rest := whole[i], whole[i + 1..];
      assert whole[i..][0] == f && whole[i..][1..] == rest;
      AgainFrom(existing, added, whole, sh, i + 1);
      if f.name !in Defined(rest) {
        WinnerIsLast(whole, i);
        LastCommandAppend(existing, added, f.name);
        AddedCommand(existing, whole, sh, f.name);
        VerdictAgain(existing, existing + added, f, sh);
        AgainJoin(Verdict(existing, f, sh), Verdict(existing + added, f, sh),
                  Verdicts(existing, rest, sh), Verdicts(existing + added, rest, sh));
      }
    }
  }

  lemma NothingAgain()
    ensures Again(NO_REPORT, NO_REPORT)
  {
  }

  lemma {:induction false} NamesAppend(a: seq<Alias>, b: seq<Alias>)
    ensures P.Names(a + b) == P.Names(a) + P.Names(b)
  {
    if a == [] {
      assert a + b == b;
    } else {
      assert (a + b)[1..] == a[1..] + b;
      NamesAppend(a[1..], b);
    }
  }

  /** Running the same import again after a successful write adds nothing and writes nothing. */
  lemma ImportAgain(existing: seq<Alias>, data: string, sh: Shell)
    requires AfterImport(existing, data, sh, true).2 == None
    ensures var (merged, first, _) := AfterImport(existing, data, sh, true);
            var (after, second, error) := AfterImport(merged, data, sh, true);
            after == merged && error == None && !second.written && Again(first.(written := false), second)
  {
    hide ParsedFile, Redefinitions, Verdicts, LastCommand, Join, Again;
    var found := ParsedFile(data).found;
    var added := Verdicts(existing, found, sh).added;
    assert found[0..] == found;
    AgainFrom(existing, added, found, sh, 0);
    if added == [] {
      assert existing + added == existing;
    }
    var skipped := ParsedFile(data).skipped + Redefinitions(found);
    JoinedParts(skipped, Verdicts(existing, found, sh));
    JoinedParts(skipped, Verdicts(existing + added, found, sh));
    SkippedAgain(skipped, Verdicts(existing, found, sh), Verdicts(existing + added, found, sh));
    VerdictsUnwritten(existing, found, sh);
    VerdictsUnwritten(existing + added, found, sh);
  }

  lemma {:induction false} VerdictsUnwritten(existing: seq<Alias>, found: seq<Found>, sh: Shell)
    ensures !Verdicts(existing, found, sh).written
  {
    hide V.Name, V.Command, LastCommand;
    if found != [] {
      VerdictsUnwritten(existing, found[1..], sh);
    }
  }

  lemma JoinedParts(skipped: seq<Skipped>, v: Report)
    ensures Join(NO_REPORT.(skipped := skipped), v) == v.(skipped := skipped + v.skipped)
  {
    JoinNothing(v);
  }

  lemma SkippedAgain(skipped: seq<Skipped>, before: Report, again: Report)
    requires Again(before, again)
    ensures Again(before.(skipped := skipped + before.skipped), again.(skipped := skipped + again.skipped))
    ensures again.added == []
  {
  }

  // ----- Accounting -----

  /** Definitions are counted by their label, as the report prints it. */
  function NameBag(names: seq<string>): multiset<string> {
    if names == [] then multiset{} else multiset{Label(names[0])} + NameBag(names[1..])
  }

  function ConflictBag(conflicts: seq<Conflict>): multiset<string> {
    if conflicts == [] then multiset{} else multiset{Label(conflicts[0].name)} + ConflictBag(conflicts[1..])
  }

  function TextBag(skipped: seq<Skipped>): multiset<string> {
    if skipped == [] then multiset{} else multiset{skipped[0].text} + TextBag(skipped[1..])
  }

  /** Everything a report says about definitions. */
  function Accounted(r: Report): multiset<string> {
    NameBag(P.Names(r.added)) + NameBag(r.kept) + ConflictBag(r.conflicts) + TextBag(r.skipped)
  }

  lemma {:induction false} NameBagAppend(a: seq<string>, b: seq<string>)
    ensures NameBag(a + b) == NameBag(a) + NameBag(b)
  {
    if a == [] {
      assert a + b == b;
    } else {
      assert (a + b)[1..] == a[1..] + b;
      NameBagAppend(a[1..], b);
    }
  }

  lemma {:induction false} TextBagAppend(a: seq<Skipped>, b: seq<Skipped>)
    ensures TextBag(a + b) == TextBag(a) + TextBag(b)
  {
    if a == [] {
      assert a + b == b;
    } else {
      assert (a + b)[1..] == a[1..] + b;
      TextBagAppend(a[1..], b);
    }
  }

  lemma {:induction false} ConflictBagAppend(a: seq<Conflict>, b: seq<Conflict>)
    ensures ConflictBag(a + b) == ConflictBag(a) + ConflictBag(b)
  {
    if a == [] {
      assert a + b == b;
    } else {
      assert (a + b)[1..] == a[1..] + b;
      ConflictBagAppend(a[1..], b);
    }
  }

  lemma AccountedJoin(a: Report, b: Report)
    ensures Accounted(Join(a, b)) == Accounted(a) + Accounted(b)
  {
    NamesAppend(a.added, b.added);
    NameBagAppend(P.Names(a.added), P.Names(b.added));
    NameBagAppend(a.kept, b.kept);
    ConflictBagAppend(a.conflicts, b.conflicts);
    TextBagAppend(a.skipped, b.skipped);
  }

  lemma OneAdded(f: Found)
    ensures forall notes ::
              Accounted(NO_REPORT.(added := [ImportedAlias(f)], notes := notes)) == multiset{Label(f.name)}
  {
    assert P.Names([ImportedAlias(f)]) == [f.name];
    OneName(f.name);
  }

  lemma OneKept(name: string)
    ensures Accounted(NO_REPORT.(kept := [name])) == multiset{Label(name)}
  {
    OneName(name);
  }

  lemma OneConflict(conflicts: seq<Conflict>, name: string)
    ensures |conflicts| == 1 && conflicts[0].name == name ==>
              Accounted(NO_REPORT.(conflicts := conflicts)) == multiset{Label(name)}
  {
    if |conflicts| == 1 {
      assert conflicts[1..] == [] && ConflictBag([]) == multiset{};
      assert ConflictBag(conflicts) == multiset{Label(conflicts[0].name)};
    }
  }

  lemma OneSkipped(skipped: seq<Skipped>, name: string)
    ensures |skipped| == 1 && skipped[0].text == Label(name) ==>
              Accounted(NO_REPORT.(skipped := skipped)) == multiset{Label(name)}
  {
    if |skipped| == 1 {
      assert skipped[1..] == [] && TextBag([]) == multiset{};
      assert TextBag(skipped) == multiset{skipped[0].text};
    }
  }

  lemma VerdictAccounts(existing: seq<Alias>, f: Found, sh: Shell)
    ensures Accounted(Verdict(existing, f, sh)) == multiset{Label(f.name)}
  {
    hide V.Name, V.Command, LastCommand, Accounted;
    OneAdded(f);
    OneConflict(Verdict(existing, f, sh).conflicts, f.name);
    OneSkipped(Verdict(existing, f, sh).skipped, f.name);
    OneKept(f.name);
  }

  lemma {:induction false} VerdictsAccount(existing: seq<Alias>, found: seq<Found>, sh: Shell)
    ensures Accounted(Verdicts(existing, found, sh)) + NameBag(Superseded(found)) == NameBag(Defined(found))
  {
    hide Verdict, Accounted, Join;
    if found == [] {
      NothingAccounted();
    } else {
      VerdictsAccount(existing, found[1..], sh);
      NameBagAppend([found[0].name], Defined(found[1..]));
      NameBagAppend([found[0].name], Superseded(found[1..]));
      OneName(found[0].name);
      if found[0].name in Defined(found[1..]) {
        assert Superseded(found) == [found[0].name] + Superseded(found[1..]);
      } else {
        assert Superseded(found) == [] + Superseded(found[1..]) == Superseded(found[1..]);
        VerdictAccounts(existing, found[0], sh);
        AccountedJoin(Verdict(existing, found[0], sh), Verdicts(existing, found[1..], sh));
      }
    }
  }

  lemma OneName(name: string)
    ensures NameBag([name]) == multiset{Label(name)}
  {
    assert [name][1..] == [];
  }

  lemma NothingAccounted()
    ensures Accounted(NO_REPORT) == multiset{}
  {
  }

  /** The names that a file defines again later, one per superseded definition. */
  function Superseded(found: seq<Found>): seq<string> {
    if found == [] then []
    else (if found[0].name in Defined(found[1..]) then [found[0].name] else []) + Superseded(found[1..])
  }

  lemma {:induction false} DefinedAppend(a: seq<Found>, b: seq<Found>)
    ensures Defined(a + b) == Defined(a) + Defined(b)
  {
    if a == [] {
      assert a + b == b;
    } else {
      assert (a + b)[1..] == a[1..] + b;
      DefinedAppend(a[1..], b);
    }
  }

  lemma {:induction false} SupersededLast(found: seq<Found>, f: Found)
    ensures NameBag(Superseded(found + [f]))
            == NameBag(Superseded(found)) + if f.name in Defined(found) then multiset{Label(f.name)} else multiset{}
  {
    if found == [] {
      assert found + [f] == [f] && [f][1..] == [];
    } else {
      hide NameBag, Superseded, Label;
      var g, rest := found[0], found[1..];
      assert (found + [f])[1..] == rest + [f];
      SupersededLast(rest, f);
      SupersededFirst(found);
      SupersededFirst(found + [f]);
      DefinedLast(rest, f, g.name);
    }
  }

  lemma DefinedLast(found: seq<Found>, f: Found, name: string)
    ensures name in Defined(found + [f]) <==> name in Defined(found) || name == f.name
  {
    DefinedAppend(found, [f]);
    assert Defined([f]) == [f.name];
  }

  lemma SupersededFirst(found: seq<Found>)
    requires found != []
    ensures NameBag(Superseded(found))
            == (if found[0].name in Defined(found[1..]) then multiset{Label(found[0].name)} else multiset{})
               + NameBag(Superseded(found[1..]))
  {
    OneName(found[0].name);
    NameBagAppend([found[0].name], Superseded(found[1..]));
    assert [] + Superseded(found[1..]) == Superseded(found[1..]);
  }

  lemma {:induction false} RedefinitionsAccount(found: seq<Found>)
    ensures TextBag(Redefinitions(found)) == NameBag(Superseded(found))
    decreases |found|
  {
    hide Superseded, Defined, Superseding, NameBag;
    if found == [] {
      NoneSuperseded();
    } else {
      var before, f := found[..|found| - 1], found[|found| - 1];
      assert found == before + [f];
      RedefinitionsAccount(before);
      SupersededLast(before, f);
      SupersedingBag(before, f);
      TextBagAppend(Redefinitions(before), Superseding(before, f));
    }
  }

  lemma SupersedingBag(before: seq<Found>, f: Found)
    ensures TextBag(Superseding(before, f)) == if f.name in Defined(before) then multiset{Label(f.name)} else multiset{}
  {
    hide Defined, Latest;
    LatestDefined(before, f.name);
    LatestIs(before, f.name);
    var s := Superseding(before, f);
    if s != [] {
      assert s[1..] == [] && TextBag([]) == multiset{};
      assert TextBag(s) == multiset{s[0].text};
    }
  }

  lemma NoneSuperseded()
    ensures NameBag(Superseded([])) == multiset{}
  {
  }

  /** Every definition in the file is accounted for exactly once: added, already there, in conflict,
      superseded or refused; the lines the parser skipped come on top. */
  lemma ImportAccounts(existing: seq<Alias>, data: string, sh: Shell)
    ensures Accounted(Reported(existing, data, sh))
            == NameBag(Defined(ParsedFile(data).found)) + TextBag(ParsedFile(data).skipped)
  {
    hide ParsedFile, Verdicts, Redefinitions;
    var p := ParsedFile(data);
    VerdictsAccount(existing, p.found, sh);
    RedefinitionsAccount(p.found);
    TextBagAppend(p.skipped, Redefinitions(p.found));
    AccountedJoin(NO_REPORT.(skipped := p.skipped + Redefinitions(p.found)), Verdicts(existing, p.found, sh));
  }

  /** Definition j is the first after definition i to define the same name. */
  predicate NextDefinition(found: seq<Found>, i: int, j: int) {
    0 <= i < j < |found| && found[i].name == found[j].name && forall k :: i < k < j ==> found[k].name != found[i].name
  }

  function Entry(found: seq<Found>, i: int, j: int): Skipped
    requires NextDefinition(found, i, j)
  {
    Skipped(found[i].line, Label(found[i].name), Redefined(found[j].line))
  }

  lemma {:induction false} RedefinitionSound(found: seq<Found>, s: Skipped) returns (i: nat, j: nat)
    requires s in Redefinitions(found)
    ensures NextDefinition(found, i, j) && s == Entry(found, i, j)
    decreases |found|
  {
    hide Latest, Label;
    var n := |found| - 1;
    var before, f := found[..n], found[n];
    if s in Redefinitions(before) {
      i, j := RedefinitionSound(before, s);
    } else {
      LatestIs(before, f.name);
      i, j := Latest(before, f.name).value, n;
    }
  }

  lemma {:induction false} RedefinitionComplete(found: seq<Found>, i: int, j: int)
    requires NextDefinition(found, i, j)
    ensures Entry(found, i, j) in Redefinitions(found)
    decreases |found|
  {
    hide Latest, Label;
    var n := |found| - 1;
    var before, f := found[..n], found[n];
    if j < n {
      RedefinitionComplete(before, i, j);
    } else {
      LatestUnique(before, f.name, i);
      assert Entry(found, i, j) in Superseding(before, f);
    }
  }

  lemma LatestUnique(found: seq<Found>, name: string, i: nat)
    requires i < |found| && found[i].name == name && forall k :: i < k < |found| ==> found[k].name != name
    ensures Latest(found, name) == Some(i)
  {
    LatestIs(found, name);
  }

  /** A definition is reported as redefined exactly when the file defines its name again, with the line
      of the next such definition. */
  lemma RedefinitionsExactly(found: seq<Found>, s: Skipped)
    ensures s in Redefinitions(found) <==> exists i, j :: NextDefinition(found, i, j) && s == Entry(found, i, j)
  {
    hide Redefinitions, NextDefinition;
    if s in Redefinitions(found) {
      var i, j := RedefinitionSound(found, s);
    }
    forall i, j | NextDefinition(found, i, j) && s == Entry(found, i, j) ensures s in Redefinitions(found) {
      RedefinitionComplete(found, i, j);
    }
  }
}
