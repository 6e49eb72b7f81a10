/** From the host's file to the agent's struct, for every kind of runner. */
module MmdsAgent {
  import opened Wrappers
  import opened Text
  import opened Mmds
  import opened MmdsEnv

  predicate IsCacheField(f: Field) {
    f.CacheUrl? || f.CacheToken? || f.S3Endpoint? || f.S3Bucket? || f.S3Region? || f.S3AccessKey? || f.S3SecretKey?
  }

  /** The text reads as a boolean. */
  predicate IsWord(text: string) { Trim(text) == "true" || Trim(text) == "false" }

  /** The host name is set, and exactly the flags have boolean values. */
  ghost predicate WellTyped(settings: seq<Setting>) {
    && Last(settings, Hostname).Some?
    && forall f: Field | !f.VmId? && Last(settings, f).Some? :: IsWord(Last(settings, f).value) <==> IsFlag(f)
  }

  function Trimmed(value: Option<string>): Option<string> { if value.Some? then Some(Trim(value.value)) else None }

  /** The agent carries exactly what was set last, trimmed. */
  ghost predicate Carries(agent: Agent, settings: seq<Setting>) {
    && agent.runnerMode == Trimmed(Last(settings, RunnerMode))
    && agent.runnerToken == Trimmed(Last(settings, RunnerToken))
    && agent.repoUrl == Trimmed(Last(settings, RepoUrl))
    && agent.runnerJitConfig == Trimmed(Last(settings, RunnerJitConfig))
    && agent.runnerName == Trimmed(Last(settings, RunnerName))
    && Some(agent.hostname) == Trimmed(Last(settings, Hostname))
    && (agent.shutdownOnExit <==> Trimmed(Last(settings, ShutdownOnExit)) == Some("true"))
    && (agent.ephemeral <==> Trimmed(Last(settings, Ephemeral)) != Some("false"))
  }

  ghost predicate CarriesCacheSettings(agent: Agent, settings: seq<Setting>) {
    && agent.cacheUrl == Trimmed(Last(settings, CacheUrl))
    && agent.cacheToken == Trimmed(Last(settings, CacheToken))
    && agent.s3Endpoint == Trimmed(Last(settings, S3Endpoint))
    && agent.s3Bucket == Trimmed(Last(settings, S3Bucket))
    && agent.s3Region == Trimmed(Last(settings, S3Region))
    && agent.s3AccessKey == Trimmed(Last(settings, S3AccessKey))
    && agent.s3SecretKey == Trimmed(Last(settings, S3SecretKey))
  }

  /** The map answers every field with its last setting. */
  ghost predicate Holds(m: Metadata, settings: seq<Setting>, f: Field) {
    (Name(f) in m <==> Last(settings, f).Some?)
      && (Last(settings, f).Some? ==> m[Name(f)] == ValueOf(Trim(Last(settings, f).value)))
  }

  lemma TextHolds(m: Metadata, settings: seq<Setting>, f: Field)
    requires Holds(m, settings, f) && (Last(settings, f).Some? ==> !IsWord(Last(settings, f).value))
    ensures TextField(m, f) == Trimmed(Last(settings, f))
  {
  }

  lemma TypesHold(m: Metadata, settings: seq<Setting>)
    requires forall f: Field :: Holds(m, settings, f)
    ensures Deserializes(m) <==> WellTyped(settings)
  {
    forall f: Field
      ensures (Name(f) in m <==> Last(settings, f).Some?)
        && (Last(settings, f).Some? ==> (m[Name(f)].Bool? <==> IsWord(Last(settings, f).value)))
    {
      assert Holds(m, settings, f);
    }
  }

  lemma FlagHolds(m: Metadata, settings: seq<Setting>, f: Field, default: bool)
    requires Holds(m, settings, f) && (Last(settings, f).Some? ==> IsWord(Last(settings, f).value))
    ensures FlagField(m, f, default) <==>
      if default then Trimmed(Last(settings, f)) != Some("false") else Trimmed(Last(settings, f)) == Some("true")
  {
  }

  lemma TextsHold(m: Metadata, settings: seq<Setting>, f: Field)
    requires (forall f: Field :: Holds(m, settings, f)) && WellTyped(settings)
    requires !f.VmId? && !IsFlag(f)
    ensures TextField(m, f) == Trimmed(Last(settings, f))
  {
    TextHolds(m, settings, f);
  }

  lemma ReadHolds(m: Metadata, settings: seq<Setting>, agent: Agent)
    requires (forall f: Field :: Holds(m, settings, f)) && WellTyped(settings) && ReadAgent(m) == Some(agent)
    ensures Carries(agent, settings)
  {
    TextsHold(m, settings, RunnerMode);
    TextsHold(m, settings, RunnerToken);
    TextsHold(m, settings, RepoUrl);
    TextsHold(m, settings, RunnerJitConfig);
    TextsHold(m, settings, RunnerName);
    TextsHold(m, settings, Hostname);
    FlagHolds(m, settings, ShutdownOnExit, false);
    FlagHolds(m, settings, Ephemeral, true);
  }

  lemma ReadCacheHolds(m: Metadata, settings: seq<Setting>, agent: Agent)
    requires (forall f: Field :: Holds(m, settings, f)) && WellTyped(settings) && ReadAgent(m) == Some(agent)
    ensures CarriesCacheSettings(agent, settings)
  {
    forall f: Field | IsCacheField(f)
      ensures TextField(m, f) == Trimmed(Last(settings, f))
    {
      TextsHold(m, settings, f);
    }
    FieldsOf(m, agent);
  }

  lemma FieldsOf(m: Metadata, agent: Agent)
    requires ReadAgent(m) == Some(agent)
    ensures agent.cacheUrl == TextField(m, CacheUrl) && agent.cacheToken == TextField(m, CacheToken)
    ensures agent.s3Endpoint == TextField(m, S3Endpoint) && agent.s3Bucket == TextField(m, S3Bucket)
    ensures agent.s3Region == TextField(m, S3Region) && agent.s3AccessKey == TextField(m, S3AccessKey)
    ensures agent.s3SecretKey == TextField(m, S3SecretKey)
  {
  }

  /**
   Written, parsed and read: the agent starts with exactly the values the host set last if
   no text value reads as a boolean, and does not start otherwise.
   */
  lemma AgentReadsSettings(lower: Lowering, settings: seq<Setting>)
    requires LowersAscii(lower) && OnLines(settings)
    ensures var r := ReadAgent(Parse(lower, Render(Pairs(settings))));
      && (r.Some? <==> WellTyped(settings))
      && (r.Some? ==> Carries(r.value, settings) && CarriesCacheSettings(r.value, settings))
  {
    var m := Parse(lower, Render(Pairs(settings)));
    forall f: Field
      ensures Holds(m, settings, f)
    {
      ParsedField(lower, settings, f);
    }
    TypesHold(m, settings);
    if WellTyped(settings) {
      ReadHolds(m, settings, ReadAgent(m).value);
      ReadCacheHolds(m, settings, ReadAgent(m).value);
    }
  }

  // ---- What each kind of file sets ----

  lemma {:induction false} LastAppend(a: seq<Setting>, b: seq<Setting>, f: Field)
    ensures Last(a + b, f) == if Last(b, f).Some? then Last(b, f) else Last(a, f)
  {
    if b == [] {
      assert a + b == a;
    } else {
      assert (a + b)[..|a + b| - 1] == a + b[..|b| - 1];
      LastAppend(a, b[..|b| - 1], f);
    }
  }

  lemma {:induction false} LastIs(settings: seq<Setting>, f: Field, i: nat)
    requires i < |settings| && settings[i].0 == f && forall j | i < j < |settings| :: settings[j].0 != f
    ensures Last(settings, f) == Some(settings[i].1)
  {
    if i < |settings| - 1 {
      LastIs(settings[..|settings| - 1], f, i);
    }
  }

  lemma {:induction false} LastNone(settings: seq<Setting>, f: Field)
    requires forall j | 0 <= j < |settings| :: settings[j].0 != f
    ensures Last(settings, f) == None
  {
    if settings != [] {
      LastNone(settings[..|settings| - 1], f);
    }
  }

  function JitValue(token: string, repoUrl: string, vmId: string, ephemeral: bool, f: Field): Option<string> {
    match f
    case RunnerMode => Some("jit")
    case RunnerToken => Some(token)
    case RepoUrl => Some(repoUrl)
    case VmId => Some(vmId)
    case RunnerJitConfig => Some(token)
    case Hostname => Some(vmId)
    case ShutdownOnExit => Some("true")
    case Ephemeral => Some(BoolText(ephemeral))
    case _ => None
  }

  lemma JitLast(token: string, repoUrl: string, vmId: string, ephemeral: bool, f: Field)
    ensures Last(JitSettings(token, repoUrl, vmId, ephemeral), f) == JitValue(token, repoUrl, vmId, ephemeral, f)
  {
    var s := JitSettings(token, repoUrl, vmId, ephemeral);
    match f
    case RunnerMode => LastIs(s, f, 0);
    case RunnerToken => LastIs(s, f, 1);
    case RepoUrl => LastIs(s, f, 2);
    case VmId => LastIs(s, f, 3);
    case RunnerJitConfig => LastIs(s, f, 4);
    case Hostname => LastIs(s, f, 5);
    case ShutdownOnExit => LastIs(s, f, 6);
    case Ephemeral => LastIs(s, f, 7);
    case _ => LastNone(s, f);
  }

  function WarmValue(token: string, url: string, runnerName: string, vmId: string, ephemeral: bool,
                     f: Field): Option<string>
  {
    match f
    case RunnerMode => Some("register")
    case RunnerToken => Some(token)
    case RepoUrl => Some(url)
    case RunnerName => Some(runnerName)
    case VmId => Some(vmId)
    case Hostname => Some(vmId)
    case ShutdownOnExit => Some("true")
    case Ephemeral => Some(BoolText(ephemeral))
    case _ => None
  }

  lemma WarmLast(token: string, url: string, runnerName: string, vmId: string, ephemeral: bool, f: Field)
    ensures Last(WarmSettings(token, url, runnerName, vmId, ephemeral), f) ==
      WarmValue(token, url, runnerName, vmId, ephemeral, f)
  {
    var s := WarmSettings(token, url, runnerName, vmId, ephemeral);
    match f
    case RunnerMode => LastIs(s, f, 0);
    case RunnerToken => LastIs(s, f, 1);
    case RepoUrl => LastIs(s, f, 2);
    case RunnerName => LastIs(s, f, 3);
    case VmId => LastIs(s, f, 4);
    case Hostname => LastIs(s, f, 5);
    case ShutdownOnExit => LastIs(s, f, 6);
    case Ephemeral => LastIs(s, f, 7);
    case _ => LastNone(s, f);
  }

  function CacheValue(c: CacheConfig, hostIp: string, f: Field): Option<string> {
    if !Announced(c) then None
    else
      match f
      case CacheUrl => Some(GuestCacheUrl(hostIp, ListenPort(c).value))
      case CacheToken => c.token
      case S3Endpoint => Some(GuestEndpoint(c, hostIp))
      case S3Bucket => Some(c.bucket)
      case S3Region => Some(c.region)
      case S3AccessKey => c.accessKey
      case S3SecretKey => c.secretKey
      case _ => None
  }

  lemma ServiceLast(c: CacheConfig, hostIp: string, f: Field)
    requires Announced(c)
    ensures Last(ServiceSettings(c, hostIp), f) ==
      if f.S3AccessKey? || f.S3SecretKey? then None else CacheValue(c, hostIp, f)
  {
    var s := ServiceSettings(c, hostIp);
    match f
    case CacheUrl => LastIs(s, f, 0);
    case CacheToken => LastIs(s, f, 1);
    case S3Endpoint => LastIs(s, f, 2);
    case S3Bucket => LastIs(s, f, 3);
    case S3Region => LastIs(s, f, 4);
    case _ => LastNone(s, f);
  }

  lemma CacheLast(c: CacheConfig, hostIp: string, f: Field)
    ensures Last(CacheSettings(c, hostIp), f) == CacheValue(c, hostIp, f)
  {
    if Announced(c) {
      var service := ServiceSettings(c, hostIp);
      var access, secret := Optional(S3AccessKey, c.accessKey), Optional(S3SecretKey, c.secretKey);
      ServiceLast(c, hostIp, f);
      LastAppend(service, access, f);
      LastAppend(service + access, secret, f);
      assert access != [] ==> access[..0] == [];
      assert secret != [] ==> secret[..0] == [];
    }
  }

  lemma {:induction false} ReplaceNoFeed(s: string, from: string, to: string)
    requires from != "" && '\n' !in s && '\n' !in to
    ensures '\n' !in Replace(s, from, to)
    decreases |s|
  {
    if s != "" {
      if from <= s {
        ReplaceNoFeed(s[|from|..], from, to);
      } else {
        ReplaceNoFeed(s[1..], from, to);
      }
    }
  }

  ghost predicate CacheOnLines(c: CacheConfig, hostIp: string) {
    && '\n' !in hostIp && '\n' !in c.endpoint && '\n' !in c.bucket && '\n' !in c.region
    && (c.token.Some? ==> '\n' !in c.token.value)
    && (c.accessKey.Some? ==> '\n' !in c.accessKey.value)
    && (c.secretKey.Some? ==> '\n' !in c.secretKey.value)
  }

  lemma CacheUrlShape(hostIp: string, port: nat)
    requires '\n' !in hostIp
    ensures var url := GuestCacheUrl(hostIp, port); '\n' !in url && Trim(url) == url && !IsWord(url)
  {
    var url := GuestCacheUrl(hostIp, port);
    ValueOfNumeral(port, 10);
    assert '\n' !in Decimal(port);
    assert url[0] == 'h' && url[|url| - 1] == '/';
    TrimFixed(url);
  }

  lemma CacheSettingsOnLines(c: CacheConfig, hostIp: string)
    requires CacheOnLines(c, hostIp)
    ensures OnLines(CacheSettings(c, hostIp))
  {
    if Announced(c) {
      CacheUrlShape(hostIp, ListenPort(c).value);
      ReplaceNoFeed(c.endpoint, "localhost", hostIp);
      ReplaceNoFeed(Replace(c.endpoint, "localhost", hostIp), "127.0.0.1", hostIp);
    }
  }

  // ---- A file and what is appended to it ----

  /** A file that sets the host name and both flags, and nothing of the cache. */
  ghost predicate IsBase(base: seq<Setting>) {
    && Last(base, Hostname).Some?
    && (forall f | IsCacheField(f) :: Last(base, f).None?)
    && (forall f | IsFlag(f) :: Last(base, f).Some? && IsWord(Last(base, f).value))
  }

  ghost predicate BaseTextsPlain(base: seq<Setting>) {
    forall f: Field | !f.VmId? && !IsFlag(f) && Last(base, f).Some? :: !IsWord(Last(base, f).value)
  }

  /** Only settings of the cache. */
  ghost predicate IsExtra(extra: seq<Setting>) { forall f | Last(extra, f).Some? :: IsCacheField(f) }

  ghost predicate ExtraPlain(extra: seq<Setting>) { forall f | Last(extra, f).Some? :: !IsWord(Last(extra, f).value) }

  lemma CombinedLast(base: seq<Setting>, extra: seq<Setting>, f: Field)
    requires IsBase(base) && IsExtra(extra)
    ensures Last(base + extra, f) == if IsCacheField(f) then Last(extra, f) else Last(base, f)
  {
    LastAppend(base, extra, f);
  }

  lemma CombinedWellTyped(base: seq<Setting>, extra: seq<Setting>)
    requires IsBase(base) && IsExtra(extra) && BaseTextsPlain(base) && ExtraPlain(extra)
    ensures WellTyped(base + extra)
  {
    CombinedLast(base, extra, Hostname);
    forall f: Field | !f.VmId? && Last(base + extra, f).Some?
      ensures IsWord(Last(base + extra, f).value) <==> IsFlag(f)
    {
      CombinedLast(base, extra, f);
    }
  }

  lemma CombinedPlain(base: seq<Setting>, extra: seq<Setting>)
    requires IsBase(base) && IsExtra(extra) && WellTyped(base + extra)
    ensures BaseTextsPlain(base) && ExtraPlain(extra)
  {
    forall f: Field | !f.VmId? && !IsFlag(f) && Last(base, f).Some?
      ensures !IsWord(Last(base, f).value)
    {
      CombinedLast(base, extra, f);
      assert Last(base + extra, f).Some?;
    }
    forall f | Last(extra, f).Some?
      ensures !IsWord(Last(extra, f).value)
    {
      CombinedLast(base, extra, f);
      assert Last(base + extra, f).Some?;
    }
  }

  lemma CombinedCarriesBase(agent: Agent, base: seq<Setting>, extra: seq<Setting>)
    requires IsBase(base) && IsExtra(extra) && Carries(agent, base + extra)
    ensures Carries(agent, base)
  {
    CombinedLast(base, extra, RunnerMode);
    CombinedLast(base, extra, RunnerToken);
    CombinedLast(base, extra, RepoUrl);
    CombinedLast(base, extra, RunnerJitConfig);
    CombinedLast(base, extra, RunnerName);
    CombinedLast(base, extra, Hostname);
    CombinedLast(base, extra, ShutdownOnExit);
    CombinedLast(base, extra, Ephemeral);
  }

  lemma CombinedCarriesExtra(agent: Agent, base: seq<Setting>, extra: seq<Setting>)
    requires IsBase(base) && IsExtra(extra) && CarriesCacheSettings(agent, base + extra)
    ensures CarriesCacheSettings(agent, extra)
  {
    forall f: Field | IsCacheField(f)
      ensures Last(base + extra, f) == Last(extra, f)
    {
      CombinedLast(base, extra, f);
    }
  }

  /** What the agent makes of a file with cache settings at its end. */
  ghost predicate ReadsBoth(r: Option<Agent>, base: seq<Setting>, extra: seq<Setting>) {
    && (r.Some? <==> BaseTextsPlain(base) && ExtraPlain(extra))
    && (r.Some? ==> Carries(r.value, base) && CarriesCacheSettings(r.value, extra))
  }

  lemma CombinedRead(lower: Lowering, base: seq<Setting>, extra: seq<Setting>)
    requires LowersAscii(lower) && IsBase(base) && IsExtra(extra) && OnLines(base) && OnLines(extra)
    ensures ReadsBoth(ReadAgent(Parse(lower, Render(Pairs(base + extra)))), base, extra)
  {
    AgentReadsSettings(lower, base + extra);
    var r := ReadAgent(Parse(lower, Render(Pairs(base + extra))));
    if r.Some? {
      CombinedPlain(base, extra);
      CombinedCarriesBase(r.value, base, extra);
      CombinedCarriesExtra(r.value, base, extra);
    }
    if BaseTextsPlain(base) && ExtraPlain(extra) {
      CombinedWellTyped(base, extra);
    }
  }

  // ---- The cache settings ----

  ghost predicate ServiceTextsPlain(c: CacheConfig, hostIp: string) {
    Announced(c) ==>
      !IsWord(c.token.value) && !IsWord(GuestEndpoint(c, hostIp)) && !IsWord(c.bucket) && !IsWord(c.region)
  }

  ghost predicate SecretTextsPlain(c: CacheConfig) {
    Announced(c) ==>
      && (c.accessKey.Some? ==> !IsWord(c.accessKey.value))
      && (c.secretKey.Some? ==> !IsWord(c.secretKey.value))
  }

  /** No text of the announced cache reads as a boolean. */
  ghost predicate CacheTextsPlain(c: CacheConfig, hostIp: string) {
    ServiceTextsPlain(c, hostIp) && SecretTextsPlain(c)
  }

  lemma PlainTextsPlainValues(c: CacheConfig, hostIp: string)
    requires '\n' !in hostIp && CacheTextsPlain(c, hostIp)
    ensures ExtraPlain(CacheSettings(c, hostIp))
  {
    forall f | Last(CacheSettings(c, hostIp), f).Some?
      ensures !IsWord(Last(CacheSettings(c, hostIp), f).value)
    {
      CacheLast(c, hostIp, f);
      CacheUrlShape(hostIp, ListenPort(c).value);
    }
  }

  /** The value of a setting of the announced cache. */
  lemma PlainValue(c: CacheConfig, hostIp: string, f: Field, text: string)
    requires ExtraPlain(CacheSettings(c, hostIp)) && CacheValue(c, hostIp, f) == Some(text)
    ensures !IsWord(text)
  {
    CacheLast(c, hostIp, f);
  }

  lemma PlainServiceTexts(c: CacheConfig, hostIp: string)
    requires ExtraPlain(CacheSettings(c, hostIp))
    ensures ServiceTextsPlain(c, hostIp)
  {
    hide ExtraPlain, CacheSettings, GuestEndpoint, IsWord;
    if Announced(c) {
      PlainValue(c, hostIp, CacheToken, c.token.value);
      PlainValue(c, hostIp, S3Endpoint, GuestEndpoint(c, hostIp));
      PlainValue(c, hostIp, S3Bucket, c.bucket);
      PlainValue(c, hostIp, S3Region, c.region);
    }
  }

  lemma PlainSecretTexts(c: CacheConfig, hostIp: string)
    requires ExtraPlain(CacheSettings(c, hostIp))
    ensures SecretTextsPlain(c)
  {
    if Announced(c) {
      if c.accessKey.Some? {
        PlainValue(c, hostIp, S3AccessKey, c.accessKey.value);
      }
      if c.secretKey.Some? {
        PlainValue(c, hostIp, S3SecretKey, c.secretKey.value);
      }
    }
  }

  lemma CacheIsExtra(c: CacheConfig, hostIp: string)
    requires '\n' !in hostIp
    ensures IsExtra(CacheSettings(c, hostIp)) && (ExtraPlain(CacheSettings(c, hostIp)) <==> CacheTextsPlain(c, hostIp))
  {
    forall f | Last(CacheSettings(c, hostIp), f).Some?
      ensures IsCacheField(f)
    {
      CacheLast(c, hostIp, f);
    }
    if CacheTextsPlain(c, hostIp) {
      PlainTextsPlainValues(c, hostIp);
    } else if ExtraPlain(CacheSettings(c, hostIp)) {
      PlainServiceTexts(c, hostIp);
      PlainSecretTexts(c, hostIp);
    }
  }

  /** The cache part of the agent's struct. */
  ghost predicate CarriesCache(agent: Agent, c: CacheConfig, hostIp: string) {
    && agent.cacheUrl == CacheValue(c, hostIp, CacheUrl)
    && agent.cacheToken == Trimmed(CacheValue(c, hostIp, CacheToken))
    && agent.s3Endpoint == Trimmed(CacheValue(c, hostIp, S3Endpoint))
    && agent.s3Bucket == Trimmed(CacheValue(c, hostIp, S3Bucket))
    && agent.s3Region == Trimmed(CacheValue(c, hostIp, S3Region))
    && agent.s3AccessKey == Trimmed(CacheValue(c, hostIp, S3AccessKey))
    && agent.s3SecretKey == Trimmed(CacheValue(c, hostIp, S3SecretKey))
  }

  lemma CacheCarried(agent: Agent, c: CacheConfig, hostIp: string)
    requires '\n' !in hostIp && CarriesCacheSettings(agent, CacheSettings(c, hostIp))
    ensures CarriesCache(agent, c, hostIp)
  {
    forall f
      ensures Last(CacheSettings(c, hostIp), f) == CacheValue(c, hostIp, f)
    {
      CacheLast(c, hostIp, f);
    }
    if Announced(c) {
      CacheUrlShape(hostIp, ListenPort(c).value);
    }
  }

  /** A file followed by the settings of the cache. */
  ghost predicate ReadsWithCache(r: Option<Agent>, base: seq<Setting>, c: CacheConfig, hostIp: string) {
    && (r.Some? <==> BaseTextsPlain(base) && CacheTextsPlain(c, hostIp))
    && (r.Some? ==> Carries(r.value, base) && CarriesCache(r.value, c, hostIp))
  }

  lemma CacheRead(lower: Lowering, base: seq<Setting>, c: CacheConfig, hostIp: string)
    requires LowersAscii(lower) && IsBase(base) && OnLines(base) && CacheOnLines(c, hostIp)
    ensures ReadsWithCache(ReadAgent(Parse(lower, Render(Pairs(base + CacheSettings(c, hostIp))))), base, c, hostIp)
  {
    CacheSettingsOnLines(c, hostIp);
    CacheIsExtra(c, hostIp);
    CombinedRead(lower, base, CacheSettings(c, hostIp));
    var r := ReadAgent(Parse(lower, Render(Pairs(base + CacheSettings(c, hostIp)))));
    if r.Some? {
      CacheCarried(r.value, c, hostIp);
    }
  }

  // ---- The settings of a named pool's VM ----

  lemma PoolLast(c: CacheConfig, hostIp: string, f: Field)
    ensures Last(PoolCacheSettings(c, hostIp), f) ==
      if f.CacheUrl? || f.CacheToken? then CacheValue(c, hostIp, f) else None
  {
    var s := PoolCacheSettings(c, hostIp);
    if Announced(c) && f.CacheUrl? {
      LastIs(s, f, 0);
    } else if Announced(c) && f.CacheToken? {
      LastIs(s, f, 1);
    } else {
      LastNone(s, f);
    }
  }

  lemma PoolIsExtra(c: CacheConfig, hostIp: string)
    requires '\n' !in hostIp
    ensures IsExtra(PoolCacheSettings(c, hostIp))
    ensures ExtraPlain(PoolCacheSettings(c, hostIp)) <==> (Announced(c) ==> !IsWord(c.token.value))
  {
    var s := PoolCacheSettings(c, hostIp);
    forall f: Field
      ensures Last(s, f) == if f.CacheUrl? || f.CacheToken? then CacheValue(c, hostIp, f) else None
    {
      PoolLast(c, hostIp, f);
    }
    if Announced(c) {
      CacheUrlShape(hostIp, ListenPort(c).value);
      assert Last(s, CacheToken) == c.token;
    }
  }

  /** The cache part of the struct of an agent in a named pool: where the cache is, and nothing of S3. */
  ghost predicate CarriesPoolCache(agent: Agent, c: CacheConfig, hostIp: string) {
    && agent.cacheUrl == CacheValue(c, hostIp, CacheUrl)
    && agent.cacheToken == Trimmed(CacheValue(c, hostIp, CacheToken))
    && agent.s3Endpoint == agent.s3Bucket == agent.s3Region == agent.s3AccessKey == agent.s3SecretKey == None
  }

  lemma PoolCacheCarried(agent: Agent, c: CacheConfig, hostIp: string)
    requires '\n' !in hostIp && CarriesCacheSettings(agent, PoolCacheSettings(c, hostIp))
    ensures CarriesPoolCache(agent, c, hostIp)
  {
    forall f: Field
      ensures Last(PoolCacheSettings(c, hostIp), f) ==
        if f.CacheUrl? || f.CacheToken? then CacheValue(c, hostIp, f) else None
    {
      PoolLast(c, hostIp, f);
    }
    if Announced(c) {
      CacheUrlShape(hostIp, ListenPort(c).value);
    }
  }

  lemma PoolOnLines(c: CacheConfig, hostIp: string)
    requires CacheOnLines(c, hostIp)
    ensures OnLines(PoolCacheSettings(c, hostIp))
  {
    if Announced(c) {
      CacheUrlShape(hostIp, ListenPort(c).value);
    }
  }

  /** A file followed by what a named pool's VM is told of the cache. */
  ghost predicate ReadsWithPoolCache(r: Option<Agent>, base: seq<Setting>, c: CacheConfig, hostIp: string) {
    && (r.Some? <==> BaseTextsPlain(base) && (Announced(c) ==> !IsWord(c.token.value)))
    && (r.Some? ==> Carries(r.value, base) && CarriesPoolCache(r.value, c, hostIp))
  }

  lemma PoolRead(lower: Lowering, base: seq<Setting>, c: CacheConfig, hostIp: string)
    requires LowersAscii(lower) && IsBase(base) && OnLines(base) && CacheOnLines(c, hostIp)
    ensures var settings := base + PoolCacheSettings(c, hostIp);
      ReadsWithPoolCache(ReadAgent(Parse(lower, Render(Pairs(settings)))), base, c, hostIp)
  {
    PoolOnLines(c, hostIp);
    PoolIsExtra(c, hostIp);
    CombinedRead(lower, base, PoolCacheSettings(c, hostIp));
    var r := ReadAgent(Parse(lower, Render(Pairs(base + PoolCacheSettings(c, hostIp)))));
    if r.Some? {
      PoolCacheCarried(r.value, c, hostIp);
    }
  }

  // ---- Just-in-time files ----

  lemma FixedTexts(ephemeral: bool)
    ensures Trim("jit") == "jit" && Trim("register") == "register" && Trim("true") == "true"
    ensures Trim(BoolText(ephemeral)) == BoolText(ephemeral) && IsWord(BoolText(ephemeral))
  {
    TrimFixed("jit");
    TrimFixed("register");
    TrimFixed("true");
    TrimFixed(BoolText(ephemeral));
  }

  lemma JitTextsPlain(base: seq<Setting>, token: string, repoUrl: string, vmId: string, ephemeral: bool)
    requires forall f: Field :: Last(base, f) == JitValue(token, repoUrl, vmId, ephemeral, f)
    ensures BaseTextsPlain(base) <==> !IsWord(token) && !IsWord(repoUrl) && !IsWord(vmId)
  {
    FixedTexts(ephemeral);
    if BaseTextsPlain(base) {
      assert Last(base, RunnerToken).Some? && Last(base, RepoUrl).Some? && Last(base, Hostname).Some?;
    }
  }

  lemma JitIsBase(base: seq<Setting>, token: string, repoUrl: string, vmId: string, ephemeral: bool)
    requires forall f: Field :: Last(base, f) == JitValue(token, repoUrl, vmId, ephemeral, f)
    ensures IsBase(base)
  {
    FixedTexts(ephemeral);
  }

  /** What a just-in-time file sets. */
  lemma JitBase(token: string, repoUrl: string, vmId: string, ephemeral: bool, base: seq<Setting>)
    requires base == JitSettings(token, repoUrl, vmId, ephemeral)
    ensures IsBase(base) && (BaseTextsPlain(base) <==> !IsWord(token) && !IsWord(repoUrl) && !IsWord(vmId))
  {
    forall f: Field
      ensures Last(base, f) == JitValue(token, repoUrl, vmId, ephemeral, f)
    {
      JitLast(token, repoUrl, vmId, ephemeral, f);
    }
    JitIsBase(base, token, repoUrl, vmId, ephemeral);
    JitTextsPlain(base, token, repoUrl, vmId, ephemeral);
  }

  ghost predicate IsJitAgent(agent: Agent, token: string, repoUrl: string, vmId: string, ephemeral: bool) {
    && agent.runnerMode == Some("jit")
    && agent.runnerToken == Some(Trim(token)) && agent.runnerJitConfig == Some(Trim(token))
    && agent.repoUrl == Some(Trim(repoUrl)) && agent.runnerName == None && agent.hostname == Trim(vmId)
    && agent.shutdownOnExit && agent.ephemeral == ephemeral
  }

  lemma JitCarriesRunner(agent: Agent, token: string, repoUrl: string, vmId: string, ephemeral: bool)
    requires Carries(agent, JitSettings(token, repoUrl, vmId, ephemeral))
    ensures agent.runnerMode == Some("jit")
    ensures agent.runnerToken == Some(Trim(token)) && agent.runnerJitConfig == Some(Trim(token))
    ensures agent.repoUrl == Some(Trim(repoUrl)) && agent.runnerName == None
  {
    FixedTexts(ephemeral);
    JitLast(token, repoUrl, vmId, ephemeral, RunnerMode);
    JitLast(token, repoUrl, vmId, ephemeral, RunnerToken);
    JitLast(token, repoUrl, vmId, ephemeral, RepoUrl);
    JitLast(token, repoUrl, vmId, ephemeral, RunnerJitConfig);
    JitLast(token, repoUrl, vmId, ephemeral, RunnerName);
  }

  lemma JitCarriesVm(agent: Agent, token: string, repoUrl: string, vmId: string, ephemeral: bool)
    requires Carries(agent, JitSettings(token, repoUrl, vmId, ephemeral))
    ensures agent.hostname == Trim(vmId) && agent.shutdownOnExit && agent.ephemeral == ephemeral
  {
    FixedTexts(ephemeral);
    JitLast(token, repoUrl, vmId, ephemeral, Hostname);
    JitLast(token, repoUrl, vmId, ephemeral, ShutdownOnExit);
    JitLast(token, repoUrl, vmId, ephemeral, Ephemeral);
  }

  lemma JitCarries(agent: Agent, token: string, repoUrl: string, vmId: string, ephemeral: bool)
    requires Carries(agent, JitSettings(token, repoUrl, vmId, ephemeral))
    ensures IsJitAgent(agent, token, repoUrl, vmId, ephemeral)
  {
    JitCarriesRunner(agent, token, repoUrl, vmId, ephemeral);
    JitCarriesVm(agent, token, repoUrl, vmId, ephemeral);
  }

  lemma JitOutcome(r: Option<Agent>, token: string, repoUrl: string, vmId: string, ephemeral: bool,
                   c: CacheConfig, hostIp: string, base: seq<Setting>)
    requires base == JitSettings(token, repoUrl, vmId, ephemeral) && ReadsWithCache(r, base, c, hostIp)
    ensures r.Some? <==> !IsWord(token) && !IsWord(repoUrl) && !IsWord(vmId) && CacheTextsPlain(c, hostIp)
    ensures r.Some? ==> IsJitAgent(r.value, token, repoUrl, vmId, ephemeral) && CarriesCache(r.value, c, hostIp)
  {
    JitBase(token, repoUrl, vmId, ephemeral, base);
    if r.Some? {
      JitCarries(r.value, token, repoUrl, vmId, ephemeral);
    }
  }

  /**
   A just-in-time VM: its agent starts if and only if no text written for it reads as a
   boolean, and then carries what the host meant, cache settings included.
   */
  lemma JitAgent(lower: Lowering, token: string, repoUrl: string, vmId: string, ephemeral: bool,
                 c: CacheConfig, hostIp: string, base: seq<Setting>, file: string)
    requires LowersAscii(lower) && CacheOnLines(c, hostIp)
    requires '\n' !in token && '\n' !in repoUrl && '\n' !in vmId
    requires base == JitSettings(token, repoUrl, vmId, ephemeral)
      && file == Render(Pairs(base + CacheSettings(c, hostIp)))
    ensures ReadAgent(Parse(lower, file)).Some? <==>
      !IsWord(token) && !IsWord(repoUrl) && !IsWord(vmId) && CacheTextsPlain(c, hostIp)
    ensures var r := ReadAgent(Parse(lower, file)); r.Some? ==>
      IsJitAgent(r.value, token, repoUrl, vmId, ephemeral) && CarriesCache(r.value, c, hostIp)
  {
    hide ReadAgent, Parse, Render;
    var r := ReadAgent(Parse(lower, file));
    JitBase(token, repoUrl, vmId, ephemeral, base);
    CacheRead(lower, base, c, hostIp);
    JitOutcome(r, token, repoUrl, vmId, ephemeral, c, hostIp, base);
  }

  // ---- Files of both kinds of pool ----

  lemma WarmIsBase(base: seq<Setting>, token: string, url: string, runnerName: string, vmId: string, ephemeral: bool)
    requires forall f: Field :: Last(base, f) == WarmValue(token, url, runnerName, vmId, ephemeral, f)
    ensures IsBase(base)
  {
    FixedTexts(ephemeral);
  }

  lemma WarmTextsPlain(base: seq<Setting>, token: string, url: string, runnerName: string, vmId: string,
                       ephemeral: bool)
    requires forall f: Field :: Last(base, f) == WarmValue(token, url, runnerName, vmId, ephemeral, f)
    ensures BaseTextsPlain(base) <==> !IsWord(token) && !IsWord(url) && !IsWord(runnerName) && !IsWord(vmId)
  {
    FixedTexts(ephemeral);
    if BaseTextsPlain(base) {
      assert Last(base, RunnerToken).Some? && Last(base, RepoUrl).Some?;
      assert Last(base, RunnerName).Some? && Last(base, Hostname).Some?;
    }
  }

  /** What a warm-pool file sets. */
  lemma WarmBase(token: string, url: string, runnerName: string, vmId: string, ephemeral: bool, base: seq<Setting>)
    requires base == WarmSettings(token, url, runnerName, vmId, ephemeral)
    ensures IsBase(base)
    ensures BaseTextsPlain(base) <==> !IsWord(token) && !IsWord(url) && !IsWord(runnerName) && !IsWord(vmId)
  {
    forall f: Field
      ensures Last(base, f) == WarmValue(token, url, runnerName, vmId, ephemeral, f)
    {
      WarmLast(token, url, runnerName, vmId, ephemeral, f);
    }
    WarmIsBase(base, token, url, runnerName, vmId, ephemeral);
    WarmTextsPlain(base, token, url, runnerName, vmId, ephemeral);
  }

  ghost predicate IsWarmAgent(agent: Agent, token: string, url: string, runnerName: string, vmId: string,
                              ephemeral: bool)
  {
    && agent.runnerMode == Some("register")
    && agent.runnerToken == Some(Trim(token)) && agent.runnerJitConfig == None
    && agent.repoUrl == Some(Trim(url)) && agent.runnerName == Some(Trim(runnerName)) && agent.hostname == Trim(vmId)
    && agent.shutdownOnExit && agent.ephemeral == ephemeral
  }

  lemma WarmCarriesRunner(agent: Agent, token: string, url: string, runnerName: string, vmId: string, ephemeral: bool)
    requires Carries(agent, WarmSettings(token, url, runnerName, vmId, ephemeral))
    ensures agent.runnerMode == Some("register")
    ensures agent.runnerToken == Some(Trim(token)) && agent.runnerJitConfig == None
    ensures agent.repoUrl == Some(Trim(url)) && agent.runnerName == Some(Trim(runnerName))
  {
    FixedTexts(ephemeral);
    WarmLast(token, url, runnerName, vmId, ephemeral, RunnerMode);
    WarmLast(token, url, runnerName, vmId, ephemeral, RunnerToken);
    WarmLast(token, url, runnerName, vmId, ephemeral, RepoUrl);
    WarmLast(token, url, runnerName, vmId, ephemeral, RunnerJitConfig);
    WarmLast(token, url, runnerName, vmId, ephemeral, RunnerName);
  }

  lemma WarmCarriesVm(agent: Agent, token: string, url: string, runnerName: string, vmId: string, ephemeral: bool)
    requires Carries(agent, WarmSettings(token, url, runnerName, vmId, ephemeral))
    ensures agent.hostname == Trim(vmId) && agent.shutdownOnExit && agent.ephemeral == ephemeral
  {
    FixedTexts(ephemeral);
    WarmLast(token, url, runnerName, vmId, ephemeral, Hostname);
    WarmLast(token, url, runnerName, vmId, ephemeral, ShutdownOnExit);
    WarmLast(token, url, runnerName, vmId, ephemeral, Ephemeral);
  }

  lemma WarmCarries(agent: Agent, token: string, url: string, runnerName: string, vmId: string, ephemeral: bool)
    requires Carries(agent, WarmSettings(token, url, runnerName, vmId, ephemeral))
    ensures IsWarmAgent(agent, token, url, runnerName, vmId, ephemeral)
  {
    WarmCarriesRunner(agent, token, url, runnerName, vmId, ephemeral);
    WarmCarriesVm(agent, token, url, runnerName, vmId, ephemeral);
  }

  lemma WarmOutcome(r: Option<Agent>, token: string, url: string, runnerName: string, vmId: string, ephemeral: bool,
                    c: CacheConfig, hostIp: string, base: seq<Setting>)
    requires base == WarmSettings(token, url, runnerName, vmId, ephemeral) && ReadsWithCache(r, base, c, hostIp)
    ensures r.Some? <==>
      !IsWord(token) && !IsWord(url) && !IsWord(runnerName) && !IsWord(vmId) && CacheTextsPlain(c, hostIp)
    ensures r.Some? ==>
      IsWarmAgent(r.value, token, url, runnerName, vmId, ephemeral) && CarriesCache(r.value, c, hostIp)
  {
    WarmBase(token, url, runnerName, vmId, ephemeral, base);
    if r.Some? {
      WarmCarries(r.value, token, url, runnerName, vmId, ephemeral);
    }
  }

  /** The same for a warm-pool VM. */
  lemma WarmAgent(lower: Lowering, token: string, url: string, runnerName: string, vmId: string, ephemeral: bool,
                  c: CacheConfig, hostIp: string, base: seq<Setting>, file: string)
    requires LowersAscii(lower) && CacheOnLines(c, hostIp)
    requires '\n' !in token && '\n' !in url && '\n' !in runnerName && '\n' !in vmId
    requires base == WarmSettings(token, url, runnerName, vmId, ephemeral)
      && file == Render(Pairs(base + CacheSettings(c, hostIp)))
    ensures ReadAgent(Parse(lower, file)).Some? <==>
      !IsWord(token) && !IsWord(url) && !IsWord(runnerName) && !IsWord(vmId) && CacheTextsPlain(c, hostIp)
    ensures var r := ReadAgent(Parse(lower, file)); r.Some? ==>
      IsWarmAgent(r.value, token, url, runnerName, vmId, ephemeral) && CarriesCache(r.value, c, hostIp)
  {
    hide ReadAgent, Parse, Render;
    var r := ReadAgent(Parse(lower, file));
    WarmBase(token, url, runnerName, vmId, ephemeral, base);
    CacheRead(lower, base, c, hostIp);
    WarmOutcome(r, token, url, runnerName, vmId, ephemeral, c, hostIp, base);
  }

  lemma PoolOutcome(r: Option<Agent>, token: string, url: string, runnerName: string, vmId: string, ephemeral: bool,
                    c: CacheConfig, hostIp: string, base: seq<Setting>)
    requires base == WarmSettings(token, url, runnerName, vmId, ephemeral) && ReadsWithPoolCache(r, base, c, hostIp)
    ensures r.Some? <==>
      && !IsWord(token) && !IsWord(url) && !IsWord(runnerName) && !IsWord(vmId)
      && (Announced(c) ==> !IsWord(c.token.value))
    ensures r.Some? ==>
      IsWarmAgent(r.value, token, url, runnerName, vmId, ephemeral) && CarriesPoolCache(r.value, c, hostIp)
  {
    WarmBase(token, url, runnerName, vmId, ephemeral, base);
    if r.Some? {
      WarmCarries(r.value, token, url, runnerName, vmId, ephemeral);
    }
  }

  /** A VM of a named pool: the same, except that of the cache only its token matters, and S3 is never set. */
  lemma PoolAgent(lower: Lowering, token: string, url: string, runnerName: string, vmId: string, ephemeral: bool,
                  c: CacheConfig, hostIp: string, base: seq<Setting>, file: string)
    requires LowersAscii(lower) && CacheOnLines(c, hostIp)
    requires '\n' !in token && '\n' !in url && '\n' !in runnerName && '\n' !in vmId
    requires base == WarmSettings(token, url, runnerName, vmId, ephemeral)
      && file == Render(Pairs(base + PoolCacheSettings(c, hostIp)))
    ensures ReadAgent(Parse(lower, file)).Some? <==>
      && !IsWord(token) && !IsWord(url) && !IsWord(runnerName) && !IsWord(vmId)
      && (Announced(c) ==> !IsWord(c.token.value))
    ensures var r := ReadAgent(Parse(lower, file)); r.Some? ==>
      IsWarmAgent(r.value, token, url, runnerName, vmId, ephemeral) && CarriesPoolCache(r.value, c, hostIp)
  {
    hide ReadAgent, Parse, Render;
    var r := ReadAgent(Parse(lower, file));
    WarmBase(token, url, runnerName, vmId, ephemeral, base);
    PoolRead(lower, base, c, hostIp);
    PoolOutcome(r, token, url, runnerName, vmId, ephemeral, c, hostIp, base);
  }
}
