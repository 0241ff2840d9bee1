/** The sync response between server and client (`internal/api/sync.go`, `internal/source/server.go`):
    the client recomputes the revision over what it received and must get the server's. */
module Agreement {
  import opened Text
  import opened Domain

  datatype WireAlias = WireAlias(name: string, command: string, description: string)

  datatype WireDevice = WireDevice(id: string, name: string, platform: string, shell: string, profileIds: seq<string>)

  datatype SyncResponse = SyncResponse(revision: string, device: WireDevice, aliases: seq<WireAlias>)

  datatype Failure = Unauthorized | BadPlatform | BadShell | NoDevice | AliasesUnreadable | RevisionMismatch

  datatype Result<T> = Ok(value: T) | Err(error: Failure)

  // ----- The server -----

  function Project(aliases: seq<Alias>): seq<WireAlias> {
    if aliases == [] then []
    else [WireAlias(aliases[0].name, aliases[0].command, aliases[0].description)] + Project(aliases[1..])
  }

  /** The device as this request reports it: platform and shell from the client, profiles from the
      store. */
  function Reported(dev: Device, platform: string, shell: string): Device {
    dev.(platform := platform, shell := shell)
  }

  /** The response for the list that was read. */
  function Projected(cfg: ResolvedConfig): SyncResponse {
    var dev := cfg.device;
    var wire := WireDevice(dev.id, dev.name, dev.platform, dev.shell, dev.profileIds);
    SyncResponse(cfg.revision, wire, Project(cfg.aliases))
  }

  /** One request, with the device the authentication found, and what happens to its store calls. */
  datatype SyncRequest = SyncRequest(
    subject: Option<string>, platform: string, shell: string, listFails: bool, touchFails: bool)

  /** The stored devices that can be read, and the stored aliases. */
  datatype Stored = Stored(devices: map<string, Device>, aliases: seq<Alias>)

  function Response(sha: Sha, stored: Stored, r: SyncRequest): Result<SyncResponse> {
    if r.subject.None? then Err(Unauthorized)
    else if !ValidPlatform(r.platform) then Err(BadPlatform)
    else if !ValidShell(r.shell) then Err(BadShell)
    else if r.subject.value !in stored.devices then Err(NoDevice)
    else if r.listFails then Err(AliasesUnreadable)
    else
      var dev := Reported(stored.devices[r.subject.value], r.platform, r.shell);
      Ok(Projected(Resolved(sha, dev, stored.aliases)))
  }

  /** The store afterwards: a served request records what the device reported, if that does not fail. */
  function Touched(sha: Sha, stored: Stored, r: SyncRequest): Stored {
    if Response(sha, stored, r).Err? || r.touchFails then stored
    else
      var id := r.subject.value;
      stored.(devices := stored.devices[id := Reported(stored.devices[id], r.platform, r.shell)])
  }

  class SyncServer {
    const sha: Sha
    var devices: map<string, Device>
    var aliases: seq<Alias>

    constructor (sha: Sha, stored: Stored)
      ensures this.sha == sha && Contents() == stored
    {
      this.sha, devices, aliases := sha, stored.devices, stored.aliases;
    }

    function Contents(): Stored
      reads this
    {
      Stored(devices, aliases)
    }

    /** `handleSync`. */
    method HandleSync(r: SyncRequest) returns (res: Result<SyncResponse>)
      modifies this
      ensures res == Response(sha, old(Contents()), r)
      ensures Contents() == Touched(sha, old(Contents()), r)
    {
      hide ValidPlatform, ValidShell, Resolved, Project;
      if r.subject == None {
        return Err(Unauthorized);
      }
      if !ValidPlatform(r.platform) {
        return Err(BadPlatform);
      }
      if !ValidShell(r.shell) {
        return Err(BadShell);
      }
      var id := r.subject.value;
      if id !in devices {
        return Err(NoDevice);
      }
      var dev := devices[id].(platform := r.platform, shell := r.shell);
      if r.listFails {
        return Err(AliasesUnreadable);
      }
      var resolved := Resolve(sha, dev, aliases);
      if !r.touchFails {
        devices := devices[id := devices[id].(platform := r.platform, shell := r.shell)];
      }
      var wire := ProjectAliases(resolved.aliases);
      var d := resolved.device;
      return Ok(SyncResponse(resolved.revision, WireDevice(d.id, d.name, d.platform, d.shell, d.profileIds), wire));
    }
  }

  method ProjectAliases(aliases: seq<Alias>) returns (wire: seq<WireAlias>)
    ensures wire == Project(aliases)
  {
    wire := [];
    for i := 0 to |aliases|
      invariant wire + Project(aliases[i..]) == Project(aliases)
    {
      var al := aliases[i];
      assert aliases[i..] == [al] + aliases[i + 1..];
      wire := wire + [WireAlias(al.name, al.command, al.description)];
    }
  }

  // ----- The client -----

  /** A received alias applies everywhere. */
  function Received(w: WireAlias): Alias {
    Alias("", w.name, w.command, w.description, true, [], [], [], [], [])
  }

  function ReceivedAll(ws: seq<WireAlias>): seq<Alias> {
    if ws == [] then [] else [Received(ws[0])] + ReceivedAll(ws[1..])
  }

  function ReceivedDevice(d: WireDevice): Device {
    Device(d.id, d.name, d.platform, d.shell, d.profileIds)
  }

  function ClientConfig(sha: Sha, w: SyncResponse): Result<ResolvedConfig> {
    if !ValidPlatform(w.device.platform) then Err(BadPlatform)
    else if !ValidShell(w.device.shell) then Err(BadShell)
    else
      var cfg := Resolved(sha, ReceivedDevice(w.device), ReceivedAll(w.aliases));
      if cfg.revision != w.revision then Err(RevisionMismatch) else Ok(cfg)
  }

  /** `toResolvedConfig`. */
  method ToResolvedConfig(sha: Sha, w: SyncResponse) returns (r: Result<ResolvedConfig>)
    ensures r == ClientConfig(sha, w)
  {
    if !ValidPlatform(w.device.platform) {
      return Err(BadPlatform);
    }
    if !ValidShell(w.device.shell) {
      return Err(BadShell);
    }
    var aliases: seq<Alias> := [];
    for i := 0 to |w.aliases|
      invariant aliases + ReceivedAll(w.aliases[i..]) == ReceivedAll(w.aliases)
    {
      assert w.aliases[i..] == [w.aliases[i]] + w.aliases[i + 1..];
      aliases := aliases + [Received(w.aliases[i])];
    }
    assert aliases == ReceivedAll(w.aliases);
    var resolved := Resolve(sha, ReceivedDevice(w.device), aliases);
    if resolved.revision != w.revision {
      return Err(RevisionMismatch);
    }
    return Ok(resolved);
  }

  // ----- Agreement -----

  lemma {:induction false} ReceivedShape(aliases: seq<Alias>)
    ensures var c := ReceivedAll(Project(aliases));
            && |c| == |aliases| && Triples(c) == Triples(aliases) && AliasFields(c) == AliasFields(aliases)
            && forall i :: 0 <= i < |c| ==> c[i].name == aliases[i].name
  {
    if aliases != [] {
      ReceivedShape(aliases[1..]);
      assert Project(aliases)[1..] == Project(aliases[1..]);
    }
  }

  /** Received aliases target every device. */
  lemma {:induction false} ReceivedMatch(dev: Device, ws: seq<WireAlias>)
    ensures Matching(dev, ReceivedAll(ws)) == ReceivedAll(ws)
  {
    if ws != [] {
      ReceivedMatch(dev, ws[1..]);
      assert ReceivedAll(ws)[1..] == ReceivedAll(ws[1..]);
    }
  }

  /** Whatever the store holds, the client accepts the server's response, and resolves it to the
      list, order and revision that resolving the stored aliases for this device gives. */
  lemma ClientAgrees(sha: Sha, stored: Stored, req: SyncRequest)
    requires Response(sha, stored, req).Ok?
    ensures var r := ClientConfig(sha, Response(sha, stored, req).value);
            var dev := Reported(stored.devices[req.subject.value], req.platform, req.shell);
            var local := Resolved(sha, dev, stored.aliases);
            && r.Ok? && r.value.revision == local.revision && r.value.device == local.device
            && Triples(r.value.aliases) == Triples(local.aliases)
  {
    hide SortAliases, Revision, HexEncode, ValidPlatform, ValidShell, Less, AliasFields, Triples;
    var w := Response(sha, stored, req).value;
    var local := Resolved(sha, Reported(stored.devices[req.subject.value], req.platform, req.shell), stored.aliases);
    var sorted := local.aliases;
    var received := ReceivedAll(w.aliases);
    SortSorts(Matching(local.device, stored.aliases));
    SortOfSorted(sorted);
    ReceivedShape(sorted);
    ReceivedMatch(ReceivedDevice(w.device), w.aliases);
    assert Sorted(received);
    SortOfSorted(received);
    SameRevision(sha, ResolvedConfig("", local.device, sorted), ResolvedConfig("", local.device, received));
  }

  /** Recording what the device reported is bookkeeping: whether it succeeds or fails, the next request of
      any device that reports its platform and shell gets the response it would have had. */
  lemma TouchIsBookkeeping(sha: Sha, stored: Stored, first: SyncRequest, next: SyncRequest)
    ensures Response(sha, Touched(sha, stored, first), next) == Response(sha, stored, next)
    ensures Touched(sha, stored, first).devices.Keys == stored.devices.Keys
  {
    hide Resolved, Projected, ValidPlatform, ValidShell;
    if Response(sha, stored, first).Ok? {
      var id := first.subject.value;
      assert Reported(Reported(stored.devices[id], first.platform, first.shell), next.platform, next.shell)
             == Reported(stored.devices[id], next.platform, next.shell);
    }
  }

  /** What a request records: a served device's platform and shell as it reported them, if the store can be
      written; nothing of any other device, and nothing at all for a refused request. */
  lemma TouchExactly(sha: Sha, stored: Stored, r: SyncRequest, id: string)
    ensures var next := Touched(sha, stored, r);
            && next.aliases == stored.aliases && (id in next.devices <==> id in stored.devices)
            && (id in stored.devices ==>
                  var before, after := stored.devices[id], next.devices[id];
                  if Response(sha, stored, r).Ok? && !r.touchFails && r.subject == Some(id)
                  then after == before.(platform := r.platform, shell := r.shell)
                  else after == before)
  {
    hide Resolved, Projected, ValidPlatform, ValidShell;
  }

  /** Which requests are served, and why the others are not: the first thing that is missing decides. */
  lemma ServedExactly(sha: Sha, stored: Stored, r: SyncRequest)
    ensures var res := Response(sha, stored, r);
            var platform := r.platform == "macos" || r.platform == "linux" || r.platform == "windows";
            var shell := r.shell == "zsh" || r.shell == "bash" || r.shell == "powershell";
            var known := r.subject.Some? && r.subject.value in stored.devices;
            && (res.Ok? <==> platform && shell && known && !r.listFails)
            && (res == Err(Unauthorized) <==> r.subject.None?)
            && (res == Err(BadPlatform) <==> r.subject.Some? && !platform)
            && (res == Err(BadShell) <==> r.subject.Some? && platform && !shell)
            && (res == Err(NoDevice) <==> r.subject.Some? && platform && shell && !known)
            && (res == Err(AliasesUnreadable) <==> platform && shell && known && r.listFails)
  {
    hide Resolved, Projected;
  }

  lemma SameRevision(sha: Sha, a: ResolvedConfig, b: ResolvedConfig)
    requires a.device == b.device && AliasFields(SortAliases(a.aliases)) == AliasFields(SortAliases(b.aliases))
    ensures Revision(sha, a) == Revision(sha, b)
  {
  }

  /** A response is accepted exactly when it names a known platform and shell and its revision is the one its
      own content hashes to; the client sorts what it received by name before hashing it, so a list need not
      arrive sorted. */
  lemma AcceptedExactly(sha: Sha, w: SyncResponse)
    ensures var sorted := SortAliases(ReceivedAll(w.aliases));
            var content := Field([w.device.platform, w.device.shell]) + AliasFields(sorted);
            var p, s := w.device.platform, w.device.shell;
            var platform := p == "macos" || p == "linux" || p == "windows";
            var shell := s == "zsh" || s == "bash" || s == "powershell";
            && (ClientConfig(sha, w).Ok? <==> platform && shell && w.revision == HexEncode(sha(content))[..12])
            && (ClientConfig(sha, w) == Err(BadPlatform) <==> !platform)
            && (ClientConfig(sha, w) == Err(BadShell) <==> platform && !shell)
  {
    hide SortAliases, HexEncode, Less, AliasFields, Field;
    ReceivedMatch(ReceivedDevice(w.device), w.aliases);
    SortSorts(ReceivedAll(w.aliases));
    SortOfSorted(SortAliases(ReceivedAll(w.aliases)));
  }
}
