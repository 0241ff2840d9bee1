/** One `sync` (`internal/app/sync.go`): resolve, render, migrate or carry forward, compare, skip or
    write, save state.  The disk is the generated files by name and the state record. */
module Sync {
  import opened Text
  import opened Domain
  import opened Validate
  import opened Posix
  import opened FileFacts
  import opened Legacy
  import opened Migration

  datatype SourceInfo = SourceInfo(kind: string, ref: string, stale: bool, fetchedAt: int)

  /** state.json; the zero value stands for a missing or unreadable file. */
  datatype State = State(
    revision: string, outputPath: string, outputHash: string, aliasCount: nat, platform: Platform, shell: Shell,
    source: SourceInfo, lastSyncAt: int, bootstrap: Option<string>)

  datatype Disk = Disk(files: map<string, string>, state: State)

  datatype Report = Report(outputPath: string, revision: string, aliasCount: nat, skipped: bool, stale: bool)

  datatype SyncError = ResolveFailed | RenderRefused | LoadFailed | ReadFailed | ApplyFailed | SaveFailed

  datatype Outcome = Synced(report: Report) | Failed(error: SyncError)

  /** Which of the file operations fail this time. */
  datatype Faults = Faults(load: bool, read: bool, apply: bool, save: bool)

  const NO_FAULTS := Faults(false, false, false, false)

  /** One run of the command: what the source resolved to, and the circumstances. */
  datatype Attempt = Attempt(resolved: Option<ResolvedConfig>, source: SourceInfo, now: int, faults: Faults)

  /** The hash function and the PowerShell renderer, both left uninterpreted. */
  datatype Env = Env(sha: Sha, powershell: ResolvedConfig -> string)

  function HashText(sha: Sha, text: string): (h: string)
    ensures |h| == 64
  {
    HexEncode(sha(text))
  }

  function OutputPath(sh: Shell): string {
    if sh == ZSH then "aliases.zsh" else if sh == BASH then "aliases.bash" else "aliases.ps1"
  }

  /** The renderer registry: a renderer exists for the three known shells, and each one guards. */
  function RenderAny(env: Env, cfg: ResolvedConfig): Option<string> {
    if !ValidShell(cfg.device.shell) then None
    else if IsPosix(cfg.device.shell) then Rendered(cfg)
    else if Guard(cfg) then Some(env.powershell(cfg)) else None
  }

  /** What the file should contain, given what it contains now. */
  function NextText(env: Env, disk: Disk, cfg: ResolvedConfig, rendered: string): string {
    var sh := cfg.device.shell;
    var path := OutputPath(sh);
    if !IsPosix(sh) || path !in disk.files then rendered
    else
      var previous := disk.files[path];
      var migrated := MigrateLegacy(rendered, previous, sh);
      if migrated == rendered && disk.state.outputHash != "" && HashText(env.sha, previous) == disk.state.outputHash
      then CarryForward(rendered, previous, sh)
      else migrated
  }

  function NewState(env: Env, disk: Disk, cfg: ResolvedConfig, text: string, a: Attempt): State {
    State(cfg.revision, OutputPath(cfg.device.shell), HashText(env.sha, text), |cfg.aliases|,
          cfg.device.platform, cfg.device.shell, a.source, a.now, disk.state.bootstrap)
  }

  /** Nothing needs writing: revision, wanted bytes and bytes on disk all match the record. */
  predicate UpToDate(env: Env, disk: Disk, cfg: ResolvedConfig, text: string) {
    var path := OutputPath(cfg.device.shell);
    && disk.state.revision == cfg.revision && disk.state.outputHash == HashText(env.sha, text)
    && path in disk.files && HashText(env.sha, disk.files[path]) == disk.state.outputHash
  }

  function SyncStep(env: Env, disk: Disk, a: Attempt): (Disk, Outcome) {
    if a.resolved.None? then (disk, Failed(ResolveFailed))
    else
      var cfg := a.resolved.value;
      var path := OutputPath(cfg.device.shell);
      match RenderAny(env, cfg)
      case None => (disk, Failed(RenderRefused))
      case Some(rendered) =>
        if a.faults.load then (disk, Failed(LoadFailed))
        else if IsPosix(cfg.device.shell) && a.faults.read then (disk, Failed(ReadFailed))
        else
          var text := NextText(env, disk, cfg, rendered);
          var report := Report(path, cfg.revision, |cfg.aliases|, false, a.source.stale);
          if !a.faults.read && UpToDate(env, disk, cfg, text) then (disk, Synced(report.(skipped := true)))
          else if a.faults.apply then (disk, Failed(ApplyFailed))
          else if a.faults.save then (disk.(files := disk.files[path := text]), Failed(SaveFailed))
          else (Disk(disk.files[path := text], NewState(env, disk, cfg, text, a)), Synced(report))
  }

  class Workspace {
    const env: Env
    var files: map<string, string>
    var state: State

    constructor (env: Env, disk: Disk)
      ensures this.env == env && Contents() == disk
    {
      this.env, files, state := env, disk.files, disk.state;
    }

    function Contents(): Disk
      reads this
    {
      Disk(files, state)
    }

    /** `syncWithContext`. */
    method SyncWithContext(a: Attempt) returns (r: Outcome)
      modifies this
      ensures (Contents(), r) == SyncStep(env, old(Contents()), a)
    {
      hide Rendered, MigrateLegacy, CarryForward, HashText, OutputPath, IsPosix, ValidShell, ParseLegacy,
           ParseMigration, Guard;
      if a.resolved == None {
        return Failed(ResolveFailed);
      }
      var cfg := a.resolved.value;
      var rendering := RenderAny(env, cfg);
      if rendering == None {
        return Failed(RenderRefused);
      }
      var rendered := rendering.value;
      var outputPath := OutputPath(cfg.device.shell);
      if a.faults.load {
        return Failed(LoadFailed);
      }
      var prevState := state;
      if IsPosix(cfg.device.shell) {
        if a.faults.read {
          return Failed(ReadFailed);
        }
        if outputPath in files {
          var previous := files[outputPath];
          var migrated := MigrateLegacy(rendered, previous, cfg.device.shell);
          if migrated == rendered && prevState.outputHash != "" && HashText(env.sha, previous) == prevState.outputHash {
            migrated := CarryForward(rendered, previous, cfg.device.shell);
          }
          rendered := migrated;
        }
      }
      var report := Report(outputPath, cfg.revision, |cfg.aliases|, false, a.source.stale);
      var outputHash := HashText(env.sha, rendered);
      if prevState.revision == cfg.revision && prevState.outputHash == outputHash
         && !a.faults.read && outputPath in files && HashText(env.sha, files[outputPath]) == prevState.outputHash {
        return Synced(report.(skipped := true));
      }
      if a.faults.apply {
        return Failed(ApplyFailed);
      }
      files := files[outputPath := rendered];
      if a.faults.save {
        return Failed(SaveFailed);
      }
      state := State(cfg.revision, outputPath, outputHash, |cfg.aliases|, cfg.device.platform, cfg.device.shell,
                     a.source, a.now, prevState.bootstrap);
      return Synced(report);
    }
  }

  // ----- What a sync leaves behind -----

  /** After every successful sync the generated file is there, it has the recorded hash, and the record is of
      this configuration; the report says so, no other file changes, and a skipped sync changes nothing. */
  lemma SyncedExactly(env: Env, disk: Disk, a: Attempt, other: string)
    requires SyncStep(env, disk, a).1.Synced?
    ensures a.resolved.Some?
    ensures var (next, r) := SyncStep(env, disk, a);
            var cfg := a.resolved.value;
            var path := OutputPath(cfg.device.shell);
            && path in next.files && HashText(env.sha, next.files[path]) == next.state.outputHash
            && next.state.revision == cfg.revision
            && r.report.outputPath == path && r.report.revision == cfg.revision
            && r.report.aliasCount == |cfg.aliases| && r.report.stale == a.source.stale
            && (r.report.skipped ==> next == disk)
            && (other != path ==>
                  && (other in next.files <==> other in disk.files)
                  && (other in next.files ==> next.files[other] == disk.files[other]))
  {
    hide RenderAny, NextText, HashText, OutputPath, IsPosix;
  }

  /** A sync that writes records the configuration, where its output is and when it came about, and keeps what
      was recorded about the rc file. */
  lemma RecordExactly(env: Env, disk: Disk, a: Attempt)
    requires SyncStep(env, disk, a).1.Synced? && !SyncStep(env, disk, a).1.report.skipped
    ensures a.resolved.Some?
    ensures var s, cfg := SyncStep(env, disk, a).0.state, a.resolved.value;
            && s.revision == cfg.revision && s.outputPath == OutputPath(cfg.device.shell)
            && s.aliasCount == |cfg.aliases| && s.platform == cfg.device.platform && s.shell == cfg.device.shell
            && s.source == a.source && s.lastSyncAt == a.now && s.bootstrap == disk.state.bootstrap
  {
    hide RenderAny, NextText, HashText, OutputPath, IsPosix, UpToDate;
  }

  /** A sync is skipped exactly when it succeeds although nothing on disk needs to change: the record is of this
      revision, and the recorded hash is both that of the wanted text and that of the file, which exists and
      can be read. */
  lemma SkippedExactly(env: Env, disk: Disk, a: Attempt)
    requires SyncStep(env, disk, a).1.Synced?
    ensures a.resolved.Some? && RenderAny(env, a.resolved.value).Some?
    ensures var cfg := a.resolved.value;
            var path := OutputPath(cfg.device.shell);
            var text := NextText(env, disk, cfg, RenderAny(env, cfg).value);
            SyncStep(env, disk, a).1.report.skipped <==>
              && disk.state.revision == cfg.revision && disk.state.outputHash == HashText(env.sha, text)
              && !a.faults.read && path in disk.files && disk.state.outputHash == HashText(env.sha, disk.files[path])
  {
    hide RenderAny, NextText, HashText, OutputPath, IsPosix;
  }

  /** There is a configuration and it can be rendered. */
  predicate Renders(env: Env, a: Attempt) {
    a.resolved.Some? && RenderAny(env, a.resolved.value).Some?
  }

  /** A failed sync leaves the state alone, and the files too unless it is the state that could not be saved;
      the first thing that goes wrong decides the error. */
  lemma FailedExactly(env: Env, disk: Disk, a: Attempt)
    ensures var (next, r) := SyncStep(env, disk, a);
            && (r.Failed? ==> next.state == disk.state)
            && (r.Failed? && r.error != SaveFailed ==> next == disk)
            && (r == Failed(ResolveFailed) <==> a.resolved.None?)
            && (r == Failed(RenderRefused) <==>
                  a.resolved.Some? && !(ValidShell(a.resolved.value.device.shell) && Guard(a.resolved.value)))
            && (r == Failed(LoadFailed) <==> Renders(env, a) && a.faults.load)
            && (r == Failed(ReadFailed) <==>
                  Renders(env, a) && !a.faults.load && a.faults.read && IsPosix(a.resolved.value.device.shell))
            && (r == Failed(ApplyFailed) ==> a.faults.apply) && (r == Failed(SaveFailed) ==> a.faults.save)
            && (r.Synced? && !r.report.skipped ==> !a.faults.apply && !a.faults.save)
  {
    hide NextText, HashText, OutputPath, IsPosix, UpToDate, ValidShell, Guard;
    if a.resolved.Some? {
      RenderedExactly(env, a.resolved.value);
    }
  }

  lemma RenderedExactly(env: Env, cfg: ResolvedConfig)
    ensures RenderAny(env, cfg).Some? <==> ValidShell(cfg.device.shell) && Guard(cfg)
  {
    hide Guard, ValidShell, IsPosix, FileText;
  }

  /** Each shell has a file of its own. */
  lemma OutputsDiffer(s: Shell, t: Shell)
    requires ValidShell(s) && ValidShell(t) && s != t
    ensures OutputPath(s) != OutputPath(t)
  {
    assert OutputPath(ZSH)[8] == 'z' && OutputPath(BASH)[8] == 'b' && OutputPath(POWERSHELL)[8] == 'p';
  }

  // ----- Which names the next file carries -----

  /** The names the next file must carry: those of an old-format file, or those of the marker of a
      file that is provably the one recorded in the state. */
  function CarriedNames(env: Env, disk: Disk, sh: Shell): seq<string> {
    var path := OutputPath(sh);
    if path !in disk.files then []
    else
      var previous := disk.files[path];
      match ParseLegacy(previous, sh)
      case Some(names) => if names != [] then names else RecordedNames(env, disk, sh, previous)
      case None => RecordedNames(env, disk, sh, previous)
  }

  function RecordedNames(env: Env, disk: Disk, sh: Shell, previous: string): seq<string> {
    if disk.state.outputHash == "" || HashText(env.sha, previous) != disk.state.outputHash then []
    else
      match ParseMigration(previous, sh)
      case None => []
      case Some(names) => names
  }

  lemma CarriedValid(env: Env, disk: Disk, sh: Shell)
    ensures NameList(CarriedNames(env, disk, sh), sh)
  {
    hide ParseLegacy, ParseMigration, Less, Name;
    if OutputPath(sh) in disk.files {
      ParsedLegacyValid(disk.files[OutputPath(sh)], sh);
      ParsedMigrationValid(disk.files[OutputPath(sh)], sh);
    }
  }

  /** Whatever is on disk, the text to write is the canonical file that carries those names. */
  lemma NextIsFile(env: Env, disk: Disk, cfg: ResolvedConfig)
    requires Renderable(cfg)
    ensures NextText(env, disk, cfg, FileText(cfg, [])) == FileText(cfg, CarriedNames(env, disk, cfg.device.shell))
  {
    hide ParseLegacy, ParseMigration, FileText, HashText, Guard, NameList, OutputPath, InjectMigration;
    var sh := cfg.device.shell;
    var names := CarriedNames(env, disk, sh);
    CarriedValid(env, disk, sh);
    NoMarker(cfg);
    if OutputPath(sh) in disk.files {
      ParsedMigrationValid(disk.files[OutputPath(sh)], sh);
    }
    if names != [] {
      InjectFile(cfg, names);
      MarkerRoundTrip(cfg, names);
    }
  }

  /** In bash and zsh the file left by a successful sync has the hash of the canonical file of the configuration
      with the names to carry, and is that very file if it was written, so that they can only differ in a
      skipped sync, and by a collision. */
  lemma SyncedText(env: Env, disk: Disk, a: Attempt)
    requires SyncStep(env, disk, a).1.Synced? && a.resolved.Some? && Renderable(a.resolved.value)
    ensures var cfg := a.resolved.value;
            var path := OutputPath(cfg.device.shell);
            var next := SyncStep(env, disk, a).0;
            var wanted := FileText(cfg, CarriedNames(env, disk, cfg.device.shell));
            && path in next.files && HashText(env.sha, next.files[path]) == HashText(env.sha, wanted)
            && (!SyncStep(env, disk, a).1.report.skipped ==> next.files[path] == wanted)
  {
    hide FileText, Guard, OutputPath, NextText, HashText, ValidShell, CarriedNames, IsPosix;
    var cfg := a.resolved.value;
    RenderablePosix(cfg);
    assert RenderAny(env, cfg) == Some(FileText(cfg, [])) by {
      RenderedIs(env, cfg);
    }
    NextIsFile(env, disk, cfg);
  }

  lemma RenderedIs(env: Env, cfg: ResolvedConfig)
    requires Renderable(cfg)
    ensures RenderAny(env, cfg) == Some(FileText(cfg, []))
  {
    hide FileText, Guard;
  }

  // ----- Fixpoint -----

  /** A generated file is never read as old, so only its marker matters. */
  lemma RewrittenNames(env: Env, disk: Disk, cfg: ResolvedConfig, names: seq<string>)
    requires Renderable(cfg) && NameList(names, cfg.device.shell)
    requires OutputPath(cfg.device.shell) in disk.files
    requires disk.files[OutputPath(cfg.device.shell)] == FileText(cfg, names)
    ensures CarriedNames(env, disk, cfg.device.shell) ==
            if disk.state.outputHash == HashText(env.sha, FileText(cfg, names)) then names else []
  {
    hide ParseLegacy, ParseMigration, FileText, Guard, OutputPath, Name, Less, IsPosix, HexEncode;
    NeverLegacy(cfg, names, cfg.device.shell);
    if names == [] {
      NoMarker(cfg);
    } else {
      MarkerRoundTrip(cfg, names);
    }
  }

  /** After one successful sync from any disk content, syncing the same configuration again is
      skipped and changes neither file nor state, whatever the source reports and the clock shows. */
  lemma SyncFixpoint(env: Env, disk: Disk, first: Attempt, second: Attempt)
    requires SyncStep(env, disk, first).1.Synced?
    requires first.resolved == second.resolved && second.faults == NO_FAULTS
    requires LineSafe(first.resolved.value.revision)
    ensures var after := SyncStep(env, disk, first).0;
            var (again, r) := SyncStep(env, after, second);
            again == after && r.Synced? && r.report.skipped
  {
    hide FileText, Guard, OutputPath, NextText, HashText, ValidShell, CarriedNames;
    var cfg := first.resolved.value;
    var (after, r) := SyncStep(env, disk, first);
    if !r.report.skipped {
      var rendered := RenderAny(env, cfg).value;
      var text := NextText(env, disk, cfg, rendered);
      assert after.files[OutputPath(cfg.device.shell)] == text && after.state.outputHash == HashText(env.sha, text);
      if IsPosix(cfg.device.shell) {
        var names := CarriedNames(env, disk, cfg.device.shell);
        CarriedValid(env, disk, cfg.device.shell);
        NextIsFile(env, disk, cfg);
        RewrittenNames(env, after, cfg, names);
        NextIsFile(env, after, cfg);
      } else {
        PowerShellUnchanged(env, disk, cfg, rendered);
        PowerShellUnchanged(env, after, cfg, rendered);
      }
    }
  }

  lemma PowerShellUnchanged(env: Env, disk: Disk, cfg: ResolvedConfig, rendered: string)
    requires !IsPosix(cfg.device.shell)
    ensures NextText(env, disk, cfg, rendered) == rendered
  {
  }

  // ----- Runs -----

  /** The file on disk is the one that was written for `last`, it carries `names`, and the state
      records it. */
  predicate Carries(env: Env, disk: Disk, last: ResolvedConfig, names: seq<string>) {
    var path := OutputPath(last.device.shell);
    && path in disk.files && disk.files[path] == FileText(last, names)
    && disk.state.outputHash == HashText(env.sha, FileText(last, names))
  }

  /** Attempts in one shell in which saving the state does not fail; anything else may. */
  ghost predicate SameShell(attempts: seq<Attempt>, sh: Shell) {
    forall a :: a in attempts ==>
      && !a.faults.save
      && (a.resolved.Some? ==> a.resolved.value.device.shell == sh && LineSafe(a.resolved.value.revision))
  }

  function Run(env: Env, disk: Disk, attempts: seq<Attempt>): Disk
    decreases |attempts|
  {
    if attempts == [] then disk else Run(env, SyncStep(env, disk, attempts[0]).0, attempts[1..])
  }

  /** The configuration of the last attempt that succeeded. */
  function LastSynced(env: Env, disk: Disk, last: ResolvedConfig, attempts: seq<Attempt>): ResolvedConfig
    decreases |attempts|
  {
    if attempts == [] then last
    else
      var (next, r) := SyncStep(env, disk, attempts[0]);
      LastSynced(env, next, if r.Synced? then attempts[0].resolved.value else last, attempts[1..])
  }

  /** Among the files these configurations render to, equal hashes mean equal texts. */
  ghost predicate CollisionFree(sha: Sha, cfgs: seq<ResolvedConfig>, names: seq<string>) {
    forall x, y :: x in cfgs && y in cfgs && HashText(sha, FileText(x, names)) == HashText(sha, FileText(y, names)) ==>
      FileText(x, names) == FileText(y, names)
  }

  function Configs(attempts: seq<Attempt>): seq<ResolvedConfig> {
    if attempts == [] then []
    else (if attempts[0].resolved.Some? then [attempts[0].resolved.value] else []) + Configs(attempts[1..])
  }

  /** One attempt keeps the file carrying the names. */
  lemma StepCarries(env: Env, disk: Disk, last: ResolvedConfig, names: seq<string>, a: Attempt)
    requires Renderable(last) && NameList(names, last.device.shell) && Carries(env, disk, last, names)
    requires SameShell([a], last.device.shell)
    requires CollisionFree(env.sha, [last] + Configs([a]), names)
    ensures var (next, r) := SyncStep(env, disk, a);
            Carries(env, next, if r.Synced? then a.resolved.value else last, names)
            && (r.Synced? ==> Renderable(a.resolved.value))
  {
    hide FileText, Guard, OutputPath, NextText, HashText, ValidShell, CarriedNames, NameList, IsPosix;
    assert a in [a];
    var (next, r) := SyncStep(env, disk, a);
    if r.Synced? {
      var cfg := a.resolved.value;
      assert cfg in Configs([a]) && last in [last] + Configs([a]) && cfg in [last] + Configs([a]);
      RewrittenNames(env, disk, last, names);
      NextIsFile(env, disk, cfg);
    }
  }

  /** Once a file carries `names`, every later successful sync in the same shell writes the file of
      its own configuration carrying exactly `names`, whatever configurations come, and however
      many attempts fail in between. */
  lemma {:induction false} RunCarries(env: Env, disk: Disk, last: ResolvedConfig, names: seq<string>,
                                      attempts: seq<Attempt>)
    requires Renderable(last) && NameList(names, last.device.shell) && Carries(env, disk, last, names)
    requires SameShell(attempts, last.device.shell)
    requires CollisionFree(env.sha, [last] + Configs(attempts), names)
    ensures Carries(env, Run(env, disk, attempts), LastSynced(env, disk, last, attempts), names)
    decreases |attempts|
  {
    hide FileText, Guard, OutputPath, SyncStep, HashText, NameList, IsPosix, Carries, LineSafe;
    if attempts != [] {
      var a, rest := attempts[0], attempts[1..];
      assert a in attempts && Configs([a]) + Configs(rest) == Configs(attempts);
      StepCarries(env, disk, last, names, a);
      var (next, r) := SyncStep(env, disk, a);
      SyncedResolved(env, disk, a);
      var last' := if r.Synced? then a.resolved.value else last;
      RunCarries(env, next, last', names, rest);
    }
  }

  lemma SyncedResolved(env: Env, disk: Disk, a: Attempt)
    ensures SyncStep(env, disk, a).1.Synced? ==> a.resolved.Some? && a.resolved.value in Configs([a])
  {
  }

  /** The first successful sync over an old-format file starts such a run. */
  lemma MigrationStarts(env: Env, disk: Disk, previous: string, names: seq<string>, a: Attempt)
    requires a.resolved.Some? && SyncStep(env, disk, a).1.Synced?
    requires IsPosix(a.resolved.value.device.shell) && LineSafe(a.resolved.value.revision)
    requires OutputPath(a.resolved.value.device.shell) in disk.files
    requires disk.files[OutputPath(a.resolved.value.device.shell)] == previous
    requires ParseLegacy(previous, a.resolved.value.device.shell) == Some(names) && names != []
    requires HashText(env.sha, previous) == HashText(env.sha, FileText(a.resolved.value, names)) ==>
               previous == FileText(a.resolved.value, names)
    ensures NameList(names, a.resolved.value.device.shell) && Renderable(a.resolved.value)
    ensures Carries(env, SyncStep(env, disk, a).0, a.resolved.value, names)
  {
    hide FileText, Guard, OutputPath, NextText, HashText, ValidShell, ParseLegacy, Less, Name, ParseMigration,
         IsPosix;
    var cfg := a.resolved.value;
    ParsedLegacyValid(previous, cfg.device.shell);
    NextIsFile(env, disk, cfg);
    NeverLegacy(cfg, names, cfg.device.shell);
  }

  /** If the file is written but the state is not saved, the next sync carries the names on only
      when the stale state happens to record this very file; otherwise they are lost. */
  lemma SaveFailure(env: Env, disk: Disk, a: Attempt)
    requires SyncStep(env, disk, a).1 == Failed(SaveFailed)
    requires IsPosix(a.resolved.value.device.shell) && LineSafe(a.resolved.value.revision)
    ensures var sh := a.resolved.value.device.shell;
            var names := CarriedNames(env, disk, sh);
            var after := SyncStep(env, disk, a).0;
            CarriedNames(env, after, sh) ==
            if disk.state.outputHash == HashText(env.sha, FileText(a.resolved.value, names)) then names else []
  {
    hide FileText, Guard, OutputPath, NextText, HashText, ValidShell, CarriedNames, IsPosix, NameList;
    var cfg := a.resolved.value;
    CarriedValid(env, disk, cfg.device.shell);
    NextIsFile(env, disk, cfg);
    var names := CarriedNames(env, disk, cfg.device.shell);
    RewrittenNames(env, SyncStep(env, disk, a).0, cfg, names);
  }

  // ----- Runs in which saving the state may fail -----

  /** Attempts in one shell; any operation of any of them may fail. */
  ghost predicate InShell(attempts: seq<Attempt>, sh: Shell) {
    forall a :: a in attempts && a.resolved.Some? ==>
      a.resolved.value.device.shell == sh && LineSafe(a.resolved.value.revision)
  }

  /** If the attempt writes the file and cannot save the state, then the state already records the hash of
      the file that carries the names. */
  predicate KeepsRecord(env: Env, disk: Disk, a: Attempt, names: seq<string>) {
    SyncStep(env, disk, a).1 == Failed(SaveFailed) && a.resolved.Some? ==>
      disk.state.outputHash == HashText(env.sha, FileText(a.resolved.value, names))
  }

  ghost predicate AllKeepRecord(env: Env, disk: Disk, attempts: seq<Attempt>, names: seq<string>)
    decreases |attempts|
  {
    attempts != [] ==>
      && KeepsRecord(env, disk, attempts[0], names)
      && AllKeepRecord(env, SyncStep(env, disk, attempts[0]).0, attempts[1..], names)
  }

  /** Such an attempt leaves a recorded file that carries the names, and every other one leaves none to carry. */
  lemma StepExactly(env: Env, disk: Disk, last: ResolvedConfig, names: seq<string>, a: Attempt)
    returns (now: ResolvedConfig)
    requires Renderable(last) && NameList(names, last.device.shell) && Carries(env, disk, last, names)
    requires InShell([a], last.device.shell)
    ensures Renderable(now) && now.device.shell == last.device.shell
    ensures var next := SyncStep(env, disk, a).0;
            if KeepsRecord(env, disk, a, names) then Carries(env, next, now, names)
            else CarriedNames(env, next, last.device.shell) == []
  {
    hide FileText, Guard, OutputPath, NextText, HashText, ValidShell, CarriedNames, NameList, IsPosix;
    assert a in [a];
    var (next, r) := SyncStep(env, disk, a);
    now := last;
    if next != disk {
      now := a.resolved.value;
      RewrittenNames(env, disk, last, names);
      NextIsFile(env, disk, now);
      if r == Failed(SaveFailed) {
        assert IsPosix(now.device.shell) by { RenderablePosix(last); }
        SaveFailure(env, disk, a);
      }
    } else if r == Failed(SaveFailed) {
      now := a.resolved.value;
      RewrittenNames(env, disk, last, names);
      NextIsFile(env, disk, now);
      assert IsPosix(now.device.shell) by { RenderablePosix(last); }
      SaveFailure(env, disk, a);
    }
  }

  lemma RenderablePosix(cfg: ResolvedConfig)
    requires Renderable(cfg)
    ensures IsPosix(cfg.device.shell)
  {
  }

  /** Names that are lost stay lost. */
  lemma StepStaysLost(env: Env, disk: Disk, sh: Shell, a: Attempt)
    requires IsPosix(sh) && InShell([a], sh) && CarriedNames(env, disk, sh) == []
    ensures CarriedNames(env, SyncStep(env, disk, a).0, sh) == []
  {
    hide FileText, Guard, OutputPath, NextText, HashText, ValidShell, CarriedNames, IsPosix;
    assert a in [a];
    var next := SyncStep(env, disk, a).0;
    if next != disk {
      NextIsFile(env, disk, a.resolved.value);
      RewrittenNames(env, next, a.resolved.value, []);
    }
  }

  /** Over every run in one shell, whatever fails, the next sync will carry exactly the names if every attempt
      whose save failed had written a file that the state already recorded, and none at all otherwise. */
  lemma {:induction false} RunCarriesExactly(env: Env, disk: Disk, last: ResolvedConfig, names: seq<string>,
                                             attempts: seq<Attempt>)
    requires Renderable(last) && NameList(names, last.device.shell) && Carries(env, disk, last, names)
    requires InShell(attempts, last.device.shell)
    ensures CarriedNames(env, Run(env, disk, attempts), last.device.shell)
            == if AllKeepRecord(env, disk, attempts, names) then names else []
    decreases |attempts|
  {
    hide FileText, Guard, OutputPath, SyncStep, HashText, NameList, IsPosix, CarriedNames, LineSafe, KeepsRecord;
    if attempts == [] {
      RewrittenNames(env, disk, last, names);
    } else {
      var a, rest := attempts[0], attempts[1..];
      assert a in attempts;
      var now := StepExactly(env, disk, last, names, a);
      var next := SyncStep(env, disk, a).0;
      if KeepsRecord(env, disk, a, names) {
        RunCarriesExactly(env, next, now, names, rest);
      } else {
        RenderablePosix(last);
        RunStaysLost(env, next, last.device.shell, rest);
      }
    }
  }

  lemma {:induction false} RunStaysLost(env: Env, disk: Disk, sh: Shell, attempts: seq<Attempt>)
    requires IsPosix(sh) && InShell(attempts, sh) && CarriedNames(env, disk, sh) == []
    ensures CarriedNames(env, Run(env, disk, attempts), sh) == []
    decreases |attempts|
  {
    hide SyncStep, IsPosix, CarriedNames, LineSafe;
    if attempts != [] {
      assert attempts[0] in attempts;
      StepStaysLost(env, disk, sh, attempts[0]);
      RunStaysLost(env, SyncStep(env, disk, attempts[0]).0, sh, attempts[1..]);
    }
  }
}
