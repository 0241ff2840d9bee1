/** The neutral alias model: targeting, resolution for a device, and the content revision
    (`internal/domain`). */
module Domain {
  import opened Text

  type Platform = string
  type Shell = string

  const ZSH: Shell := "zsh"
  const BASH: Shell := "bash"
  const POWERSHELL: Shell := "powershell"

  predicate ValidPlatform(p: Platform) {
    p == "macos" || p == "linux" || p == "windows"
  }

  predicate ValidShell(s: Shell) {
    s == ZSH || s == BASH || s == POWERSHELL
  }

  /** The shells with POSIX alias syntax and quoting. */
  predicate IsPosix(s: Shell) {
    s == ZSH || s == BASH
  }

  datatype Alias = Alias(
    id: string, name: string, command: string, description: string, enabled: bool, tags: seq<string>,
    platforms: seq<Platform>, shells: seq<Shell>, profileIds: seq<string>, deviceIds: seq<string>)

  datatype Device = Device(id: string, name: string, platform: Platform, shell: Shell, profileIds: seq<string>)

  datatype ResolvedConfig = ResolvedConfig(revision: string, device: Device, aliases: seq<Alias>)

  // ----- Targeting -----

  predicate TargetsPlatform(a: Alias, p: Platform) {
    a.platforms == [] || p in a.platforms
  }

  predicate TargetsShell(a: Alias, s: Shell) {
    a.shells == [] || s in a.shells
  }

  predicate TargetsProfiles(a: Alias, deviceProfiles: seq<string>) {
    a.profileIds == [] || exists p :: p in a.profileIds && p in deviceProfiles
  }

  predicate TargetsDevice(a: Alias, id: string) {
    a.deviceIds == [] || id in a.deviceIds
  }

  datatype TargetingMiss = MissNone | MissDisabled | MissPlatform | MissShell | MissProfile | MissDevice

  /** The first reason, in the order the dimensions are evaluated, why `a` does not reach `dev`. */
  function Miss(a: Alias, dev: Device): TargetingMiss {
    if !a.enabled then MissDisabled
    else if !TargetsPlatform(a, dev.platform) then MissPlatform
    else if !TargetsShell(a, dev.shell) then MissShell
    else if !TargetsProfiles(a, dev.profileIds) then MissProfile
    else if !TargetsDevice(a, dev.id) then MissDevice
    else MissNone
  }

  predicate AppliesTo(a: Alias, dev: Device) {
    Miss(a, dev) == MissNone
  }

  // ----- Stable sort by name -----

  ghost predicate Sorted(s: seq<Alias>) {
    forall i, j :: 0 <= i < j < |s| ==> !Less(s[j].name, s[i].name)
  }

  ghost predicate DistinctNames(s: seq<Alias>) {
    forall i, j :: 0 <= i < j < |s| ==> s[i].name != s[j].name
  }

  /** `a` placed before the first element whose name is not smaller. */
  function Insert(a: Alias, s: seq<Alias>): seq<Alias> {
    if s == [] then [a]
    else if Less(s[0].name, a.name) then [s[0]] + Insert(a, s[1..])
    else [a] + s
  }

  /** `slices.SortStableFunc` by name. */
  function SortAliases(s: seq<Alias>): seq<Alias> {
    if s == [] then [] else Insert(s[0], SortAliases(s[1..]))
  }

  function WithName(s: seq<Alias>, name: string): seq<Alias> {
    if s == [] then [] else (if s[0].name == name then [s[0]] else []) + WithName(s[1..], name)
  }

  lemma {:induction false} InsertPermutes(a: Alias, s: seq<Alias>)
    ensures multiset(Insert(a, s)) == multiset{a} + multiset(s)
  {
    if s != [] && Less(s[0].name, a.name) {
      InsertPermutes(a, s[1..]);
      assert s == [s[0]] + s[1..];
    }
  }

  lemma {:induction false} InsertSorted(a: Alias, s: seq<Alias>)
    requires Sorted(s)
    ensures Sorted(Insert(a, s))
  {
    hide Less;
    var r := Insert(a, s);
    if s == [] {
    } else if Less(s[0].name, a.name) {
      InsertSorted(a, s[1..]);
      InsertPermutes(a, s[1..]);
      var rest := Insert(a, s[1..]);
      assert s == [s[0]] + s[1..] && r == [s[0]] + rest;
      forall j | 0 < j < |r| ensures !Less(r[j].name, s[0].name) {
        assert rest[j - 1] in multiset(rest);
        assert r[j] == a || r[j] in s[1..];
        LessAsymmetric(s[0].name, a.name);
      }
    } else {
      assert s == [s[0]] + s[1..];
      forall j | 0 < j < |r| ensures !Less(r[j].name, a.name) {
        if j > 1 {
          assert !Less(s[j - 1].name, s[0].name);
          NotLessTransitive(a.name, s[0].name, s[j - 1].name);
        }
      }
    }
  }

  lemma {:induction false} SortSorts(s: seq<Alias>)
    ensures Sorted(SortAliases(s)) && multiset(SortAliases(s)) == multiset(s)
    ensures |SortAliases(s)| == |s|
  {
    hide Less, Insert;
    if s != [] {
      SortSorts(s[1..]);
      InsertSorted(s[0], SortAliases(s[1..]));
      InsertPermutes(s[0], SortAliases(s[1..]));
      assert s == [s[0]] + s[1..];
    }
    assert |multiset(SortAliases(s))| == |multiset(s)|;
  }

  /** The sort is stable: aliases that share a name keep their order. */
  lemma {:induction false} SortIsStable(s: seq<Alias>, name: string)
    ensures WithName(SortAliases(s), name) == WithName(s, name)
  {
    if s != [] {
      SortIsStable(s[1..], name);
      SortSorts(s[1..]);
      InsertKeepsOrder(s[0], SortAliases(s[1..]), name);
    }
  }

  lemma {:induction false} InsertKeepsOrder(a: Alias, s: seq<Alias>, name: string)
    ensures WithName(Insert(a, s), name) == WithName([a] + s, name)
  {
    assert ([a] + s)[1..] == s;
    if s != [] && Less(s[0].name, a.name) {
      InsertKeepsOrder(a, s[1..], name);
      LessIrreflexive(a.name);
      assert ([a] + s[1..])[1..] == s[1..];
    }
  }

  lemma {:induction false} SortOfSorted(s: seq<Alias>)
    requires Sorted(s)
    ensures SortAliases(s) == s
  {
    if s != [] {
      SortOfSorted(s[1..]);
      if |s| > 1 { assert !Less(s[1].name, s[0].name); }
    }
  }

  /** A sorted list with distinct names is determined by its elements. */
  lemma {:induction false} SortedUnique(s: seq<Alias>, t: seq<Alias>)
    requires Sorted(s) && Sorted(t) && multiset(s) == multiset(t) && DistinctNames(s)
    ensures s == t
  {
    assert |multiset(s)| == |s| && |multiset(t)| == |t|;
    if s != [] {
      SameHead(s, t);
      assert s == [s[0]] + s[1..] && t == [t[0]] + t[1..];
      assert multiset(s[1..]) == multiset(s) - multiset{s[0]};
      SortedUnique(s[1..], t[1..]);
    }
  }

  lemma SameHead(s: seq<Alias>, t: seq<Alias>)
    requires Sorted(s) && Sorted(t) && multiset(s) == multiset(t) && DistinctNames(s)
    requires s != [] && t != []
    ensures s[0] == t[0]
  {
    assert s[0] in multiset(t) && t[0] in multiset(s);
    var i :| 0 <= i < |t| && t[i] == s[0];
    var j :| 0 <= j < |s| && s[j] == t[0];
    LessTotal(s[0].name, t[0].name);
    LessIrreflexive(s[0].name);
    assert s[j].name == s[0].name;
  }

  /** Distinct names survive a permutation. */
  lemma DistinctPermutation(s: seq<Alias>, t: seq<Alias>)
    requires multiset(s) == multiset(t) && DistinctNames(s)
    ensures DistinctNames(t)
  {
    forall i, j | 0 <= i < j < |t| ensures t[i].name != t[j].name {
      if t[i].name == t[j].name {
        assert t[i] in multiset(s) && t[j] in multiset(s);
        assert t[i] == t[j];
        assert t == t[..i] + [t[i]] + t[i + 1..j] + [t[j]] + t[j + 1..];
        assert multiset(t)[t[i]] >= 2;
        TwiceInSeq(s, t[i]);
      }
    }
  }

  lemma {:induction false} TwiceInSeq(s: seq<Alias>, a: Alias)
    requires multiset(s)[a] >= 2
    ensures exists i, j :: 0 <= i < j < |s| && s[i] == s[j] == a
  {
    assert s == [s[0]] + s[1..];
    if s[0] == a {
      assert a in multiset(s[1..]);
      var j :| 0 <= j < |s[1..]| && s[1..][j] == a;
      assert s[0] == s[j + 1] == a;
    } else {
      TwiceInSeq(s[1..], a);
      var i, j :| 0 <= i < j < |s[1..]| && s[1..][i] == s[1..][j] == a;
      assert s[i + 1] == s[j + 1] == a;
    }
  }

  // ----- Revision -----

  type Byte = b: nat | b < 256

  /** A SHA-256 digest: 32 bytes. */
  type Digest = d: seq<Byte> | |d| == 32 witness seq(32, _ => 0)

  /** The hash function stays uninterpreted: whatever is proved holds for every one. */
  type Sha = string -> Digest

  predicate IsHex(c: char) {
    '0' <= c <= '9' || 'a' <= c <= 'f'
  }

  function HexDigit(n: nat): (c: char)
    requires n < 16
    ensures IsHex(c)
  {
    if n < 10 then ('0' as int + n) as char else ('a' as int + n - 10) as char
  }

  /** `hex.EncodeToString`. */
  function HexEncode(d: seq<Byte>): (s: string)
    ensures |s| == 2 * |d| && forall c :: c in s ==> IsHex(c)
  {
    if d == [] then "" else [HexDigit(d[0] / 16), HexDigit(d[0] % 16)] + HexEncode(d[1..])
  }

  /** Parts each closed by NUL, the record closed by the record separator. */
  function Field(parts: seq<string>): string {
    if parts == [] then "\U{001E}" else parts[0] + "\0" + Field(parts[1..])
  }

  function AliasFields(s: seq<Alias>): string {
    if s == [] then "" else Field([s[0].name, s[0].command, s[0].description]) + AliasFields(s[1..])
  }

  /** The bytes the revision hashes. */
  function RevisionPreimage(cfg: ResolvedConfig): string {
    Field([cfg.device.platform, cfg.device.shell]) + AliasFields(SortAliases(cfg.aliases))
  }

  predicate IsRevision(r: string) {
    |r| == 12 && forall c :: c in r ==> IsHex(c)
  }

  function Revision(sha: Sha, cfg: ResolvedConfig): (r: string)
    ensures IsRevision(r)
  {
    HexEncode(sha(RevisionPreimage(cfg)))[..12]
  }

  /** One hashed record: every part and its NUL, then the record separator. */
  method WriteField(hashed: string, parts: seq<string>) returns (r: string)
    ensures r == hashed + Field(parts)
  {
    r := hashed;
    for i := 0 to |parts|
      invariant r + Field(parts[i..]) == hashed + Field(parts)
    {
      assert parts[i..][1..] == parts[i + 1..];
      assert r + (parts[i] + "\0" + Field(parts[i + 1..])) == r + parts[i] + "\0" + Field(parts[i + 1..]);
      r := r + parts[i] + "\0";
    }
    r := r + "\U{001E}";
  }

  method ComputeRevision(sha: Sha, cfg: ResolvedConfig) returns (r: string)
    ensures r == Revision(sha, cfg)
  {
    var hashed := WriteField("", [cfg.device.platform, cfg.device.shell]);
    var sorted := SortAliases(cfg.aliases);
    for i := 0 to |sorted|
      invariant hashed + AliasFields(sorted[i..]) == RevisionPreimage(cfg)
    {
      assert sorted[i..][1..] == sorted[i + 1..];
      hashed := WriteField(hashed, [sorted[i].name, sorted[i].command, sorted[i].description]);
    }
    assert hashed + "" == hashed;
    r := HexEncode(sha(hashed))[..12];
  }

  // ----- Resolution -----

  function Matching(dev: Device, aliases: seq<Alias>): seq<Alias> {
    if aliases == [] then []
    else (if AppliesTo(aliases[0], dev) then [aliases[0]] else []) + Matching(dev, aliases[1..])
  }

  /** What resolving `aliases` for `dev` means. */
  function Resolved(sha: Sha, dev: Device, aliases: seq<Alias>): ResolvedConfig {
    var cfg := ResolvedConfig("", dev, SortAliases(Matching(dev, aliases)));
    cfg.(revision := Revision(sha, cfg))
  }

  method Resolve(sha: Sha, dev: Device, aliases: seq<Alias>) returns (cfg: ResolvedConfig)
    ensures cfg == Resolved(sha, dev, aliases)
  {
    var matched := [];
    for i := 0 to |aliases|
      invariant matched + Matching(dev, aliases[i..]) == Matching(dev, aliases)
    {
      assert aliases[i..][1..] == aliases[i + 1..];
      if AppliesTo(aliases[i], dev) {
        matched := matched + [aliases[i]];
      }
    }
    assert matched == Matching(dev, aliases);
    cfg := ResolvedConfig("", dev, SortAliases(matched));
    var revision := ComputeRevision(sha, cfg);
    cfg := cfg.(revision := revision);
  }

  // ----- What a resolution keeps -----

  /** Each reason is given exactly when its dimension fails and no earlier one does. */
  lemma MissExactly(a: Alias, dev: Device)
    ensures var m := Miss(a, dev);
            var platform := a.platforms == [] || dev.platform in a.platforms;
            var shell := a.shells == [] || dev.shell in a.shells;
            var profile := a.profileIds == [] || exists p :: p in a.profileIds && p in dev.profileIds;
            var device := a.deviceIds == [] || dev.id in a.deviceIds;
            && (m == MissDisabled <==> !a.enabled)
            && (m == MissPlatform <==> a.enabled && !platform)
            && (m == MissShell <==> a.enabled && platform && !shell)
            && (m == MissProfile <==> a.enabled && platform && shell && !profile)
            && (m == MissDevice <==> a.enabled && platform && shell && profile && !device)
            && (m == MissNone <==> a.enabled && platform && shell && profile && device)
  {
  }

  /** A resolved configuration holds an alias as often as the list it was resolved from, if the alias is enabled
      and each of its four dimensions is open or met by the device; otherwise it does not hold it. */
  lemma ResolvesExactly(sha: Sha, dev: Device, aliases: seq<Alias>, a: Alias)
    ensures multiset(Resolved(sha, dev, aliases).aliases)[a] ==
            if && a.enabled
               && (a.platforms == [] || dev.platform in a.platforms)
               && (a.shells == [] || dev.shell in a.shells)
               && (a.profileIds == [] || exists p :: p in a.profileIds && p in dev.profileIds)
               && (a.deviceIds == [] || dev.id in a.deviceIds)
            then multiset(aliases)[a] else 0
    ensures Resolved(sha, dev, aliases).device == dev
  {
    hide SortAliases, Revision;
    MatchingCount(dev, aliases, a);
    MissExactly(a, dev);
    SortSorts(Matching(dev, aliases));
  }

  lemma {:induction false} MatchingCount(dev: Device, aliases: seq<Alias>, a: Alias)
    ensures multiset(Matching(dev, aliases))[a] == if AppliesTo(a, dev) then multiset(aliases)[a] else 0
  {
    hide AppliesTo;
    if aliases != [] {
      var first, rest := aliases[0], aliases[1..];
      assert aliases == [first] + rest;
      MatchingCount(dev, rest, a);
    }
  }

  // ----- The revision preimage determines what it hashes -----

  ghost predicate NoNul(s: string) {
    '\0' !in s
  }

  ghost predicate NulFree(cfg: ResolvedConfig) {
    && NoNul(cfg.device.platform) && NoNul(cfg.device.shell)
    && forall a :: a in cfg.aliases ==> NoNul(a.name) && NoNul(a.command) && NoNul(a.description)
  }

  /** What a renderer can see of an alias. */
  function Triples(s: seq<Alias>): seq<(string, string, string)> {
    if s == [] then [] else [(s[0].name, s[0].command, s[0].description)] + Triples(s[1..])
  }

  /** Reading up to the first NUL recovers the part before it. */
  lemma NulSplit(x: string, r: string, y: string, t: string)
    requires NoNul(x) && NoNul(y) && x + "\0" + r == y + "\0" + t
    ensures x == y && r == t
  {
    IndexCharIs(x, '\0', r);
    IndexCharIs(y, '\0', t);
    assert x == (x + "\0" + r)[..|x|] && y == (y + "\0" + t)[..|y|];
    assert r == (x + "\0" + r)[|x| + 1..] && t == (y + "\0" + t)[|y| + 1..];
  }

  lemma {:induction false} FieldSplit(xs: seq<string>, r: string, ys: seq<string>, t: string)
    requires |xs| == |ys|
    requires forall x :: x in xs + ys ==> NoNul(x)
    requires Field(xs) + r == Field(ys) + t
    ensures xs == ys && r == t
  {
    if xs == [] {
      assert r == (Field(xs) + r)[1..] && t == (Field(ys) + t)[1..];
    } else {
      assert xs[0] in xs + ys && ys[0] in xs + ys;
      assert Field(xs) + r == xs[0] + "\0" + (Field(xs[1..]) + r);
      assert Field(ys) + t == ys[0] + "\0" + (Field(ys[1..]) + t);
      NulSplit(xs[0], Field(xs[1..]) + r, ys[0], Field(ys[1..]) + t);
      FieldSplit(xs[1..], r, ys[1..], t);
      assert xs == [xs[0]] + xs[1..] && ys == [ys[0]] + ys[1..];
    }
  }

  lemma {:induction false} AliasFieldsInjective(s: seq<Alias>, t: seq<Alias>)
    requires forall a :: a in s + t ==> NoNul(a.name) && NoNul(a.command) && NoNul(a.description)
    requires AliasFields(s) == AliasFields(t)
    ensures Triples(s) == Triples(t)
  {
    if s != [] && t != [] {
      assert s[0] in s + t && t[0] in s + t;
      FieldSplit([s[0].name, s[0].command, s[0].description], AliasFields(s[1..]),
                 [t[0].name, t[0].command, t[0].description], AliasFields(t[1..]));
      AliasFieldsInjective(s[1..], t[1..]);
    }
  }

  /** Two configurations hash the same bytes exactly when they have the same platform, shell
      and sorted (name, command, description) list. */
  lemma PreimageInjective(a: ResolvedConfig, b: ResolvedConfig)
    requires NulFree(a) && NulFree(b)
    ensures RevisionPreimage(a) == RevisionPreimage(b) <==>
            a.device.platform == b.device.platform && a.device.shell == b.device.shell
            && Triples(SortAliases(a.aliases)) == Triples(SortAliases(b.aliases))
  {
    var s, t := SortAliases(a.aliases), SortAliases(b.aliases);
    SortSorts(a.aliases);
    SortSorts(b.aliases);
    if RevisionPreimage(a) == RevisionPreimage(b) {
      var x, y := [a.device.platform, a.device.shell], [b.device.platform, b.device.shell];
      FieldSplit(x, AliasFields(s), y, AliasFields(t));
      forall x: Alias | x in s + t ensures NoNul(x.name) && NoNul(x.command) && NoNul(x.description) {
        assert x in multiset(s) || x in multiset(t);
      }
      AliasFieldsInjective(s, t);
    }
    if Triples(s) == Triples(t) {
      TriplesDetermineFields(s, t);
    }
  }

  lemma {:induction false} TriplesDetermineFields(s: seq<Alias>, t: seq<Alias>)
    requires Triples(s) == Triples(t)
    ensures AliasFields(s) == AliasFields(t)
  {
    if s != [] && t != [] {
      assert Triples(s)[1..] == Triples(s[1..]) && Triples(t)[1..] == Triples(t[1..]);
      assert Triples(s)[0] == Triples(t)[0];
      TriplesDetermineFields(s[1..], t[1..]);
    }
  }

  /** Reordering aliases with distinct names changes neither the sorted list nor the revision. */
  lemma RevisionPermutation(sha: Sha, a: ResolvedConfig, b: ResolvedConfig)
    requires a.device == b.device && multiset(a.aliases) == multiset(b.aliases) && DistinctNames(a.aliases)
    ensures SortAliases(a.aliases) == SortAliases(b.aliases)
    ensures Revision(sha, a) == Revision(sha, b)
  {
    SortSorts(a.aliases);
    SortSorts(b.aliases);
    DistinctPermutation(a.aliases, SortAliases(a.aliases));
    SortedUnique(SortAliases(a.aliases), SortAliases(b.aliases));
  }
}
