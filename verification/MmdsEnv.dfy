/** What the host writes for a VM and what the agent inside reads: writer, parser and reader together. */
module MmdsEnv {
  import opened Wrappers
  import opened Text
  import opened Mmds

  /** The keys the host writes. */
  datatype Field =
    | RunnerMode | RunnerToken | RepoUrl | VmId | RunnerJitConfig | RunnerName | Hostname
    | ShutdownOnExit | Ephemeral
    | CacheUrl | CacheToken | S3Endpoint | S3Bucket | S3Region | S3AccessKey | S3SecretKey

  /** As written by the host. */
  function Key(f: Field): string {
    match f
    case RunnerMode => "RUNNER_MODE"
    case RunnerToken => "RUNNER_TOKEN"
    case RepoUrl => "REPO_URL"
    case VmId => "VM_ID"
    case RunnerJitConfig => "RUNNER_JIT_CONFIG"
    case RunnerName => "RUNNER_NAME"
    case Hostname => "HOSTNAME"
    case ShutdownOnExit => "SHUTDOWN_ON_EXIT"
    case Ephemeral => "EPHEMERAL"
    case CacheUrl => "CACHE_URL"
    case CacheToken => "CACHE_TOKEN"
    case S3Endpoint => "S3_ENDPOINT"
    case S3Bucket => "S3_BUCKET"
    case S3Region => "S3_REGION"
    case S3AccessKey => "S3_ACCESS_KEY"
    case S3SecretKey => "S3_SECRET_KEY"
  }

  /** As named in the agent's struct. */
  function Name(f: Field): string {
    match f
    case RunnerMode => "runner_mode"
    case RunnerToken => "runner_token"
    case RepoUrl => "repo_url"
    case VmId => "vm_id"
    case RunnerJitConfig => "runner_jit_config"
    case RunnerName => "runner_name"
    case Hostname => "hostname"
    case ShutdownOnExit => "shutdown_on_exit"
    case Ephemeral => "ephemeral"
    case CacheUrl => "cache_url"
    case CacheToken => "cache_token"
    case S3Endpoint => "s3_endpoint"
    case S3Bucket => "s3_bucket"
    case S3Region => "s3_region"
    case S3AccessKey => "s3_access_key"
    case S3SecretKey => "s3_secret_key"
  }

  function LowerChar(c: char): char { if 'A' <= c <= 'Z' then c + ('a' - 'A') else c }

  function AsciiLower(s: string): string { seq(|s|, i requires 0 <= i < |s| => LowerChar(s[i])) }

  predicate IsAscii(s: string) { forall i | 0 <= i < |s| :: s[i] < 128 as char }

  ghost predicate LowersAscii(lower: Lowering) { forall s | IsAscii(s) :: lower(s) == AsciiLower(s) }

  predicate IsKeyChar(c: char) { 'A' <= c <= 'Z' || '0' <= c <= '9' || c == '_' }

  ghost predicate LowersTo(key: string, name: string) {
    0 < |key| == |name| && forall i | 0 <= i < |key| :: IsKeyChar(key[i]) && LowerChar(key[i]) == name[i]
  }

  lemma RunnerKeysLower(f: Field)
    requires f.RunnerMode? || f.RunnerToken? || f.RepoUrl? || f.VmId? || f.RunnerName?
    ensures LowersTo(Key(f), Name(f))
  {
  }

  lemma JitKeyLowers(f: Field)
    requires f.RunnerJitConfig?
    ensures LowersTo(Key(f), Name(f))
  {
  }

  lemma ShutdownKeyLowers(f: Field)
    requires f.ShutdownOnExit?
    ensures LowersTo(Key(f), Name(f))
  {
  }

  lemma VmKeysLower(f: Field)
    requires f.Hostname? || f.Ephemeral?
    ensures LowersTo(Key(f), Name(f))
  {
  }

  lemma CacheKeysLower(f: Field)
    requires f.CacheUrl? || f.CacheToken? || f.S3Endpoint?
    ensures LowersTo(Key(f), Name(f))
  {
  }

  lemma S3PlaceKeysLower(f: Field)
    requires f.S3Bucket? || f.S3Region?
    ensures LowersTo(Key(f), Name(f))
  {
  }

  lemma S3SecretKeysLower(f: Field)
    requires f.S3AccessKey? || f.S3SecretKey?
    ensures LowersTo(Key(f), Name(f))
  {
  }

  lemma KeyLowers(f: Field)
    ensures LowersTo(Key(f), Name(f))
  {
    if f.RunnerMode? || f.RunnerToken? || f.RepoUrl? || f.VmId? || f.RunnerName? {
      RunnerKeysLower(f);
    } else if f.RunnerJitConfig? {
      JitKeyLowers(f);
    } else if f.ShutdownOnExit? {
      ShutdownKeyLowers(f);
    } else if f.Hostname? || f.Ephemeral? {
      VmKeysLower(f);
    } else if f.CacheUrl? || f.CacheToken? || f.S3Endpoint? {
      CacheKeysLower(f);
    } else if f.S3Bucket? || f.S3Region? {
      S3PlaceKeysLower(f);
    } else {
      S3SecretKeysLower(f);
    }
  }

  lemma KeyShape(f: Field)
    ensures Key(f) != "" && forall i | 0 <= i < |Key(f)| :: IsKeyChar(Key(f)[i])
  {
    KeyLowers(f);
    assert LowersTo(Key(f), Name(f));
  }

  lemma KeyIsPlain(key: string)
    requires key != "" && forall i | 0 <= i < |key| :: IsKeyChar(key[i])
    ensures Trim(key) == key && IsAscii(key) && '=' !in key && '\n' !in key
  {
    assert IsKeyChar(key[0]) && IsKeyChar(key[|key| - 1]);
    TrimFixed(key);
  }

  /** The host's keys arrive under the agent's names. */
  lemma KeyBecomesName(lower: Lowering, f: Field, key: string, name: string)
    requires LowersAscii(lower) && key == Key(f) && name == Name(f)
    ensures lower(Trim(key)) == name
    ensures '=' !in key && '\n' !in key
  {
    KeyShape(f);
    KeyLowers(f);
    KeyIsPlain(key);
    assert LowersTo(key, name);
    assert AsciiLower(key) == name;
  }

  /** A few characters tell the names apart. */
  lemma NamesDiffer(f: Field, g: Field)
    requires f != g
    ensures Name(f) != Name(g)
  {
    var a, b := Name(f), Name(g);
    assert |a| != |b| || a[0] != b[0] || a[3] != b[3] || a[|a| - 3] != b[|b| - 3];
  }

  // ---- Writing ----

  type Setting = (Field, string)

  function PairOf(setting: Setting): Pair { (Key(setting.0), setting.1) }

  function Pairs(settings: seq<Setting>): (pairs: seq<Pair>)
    ensures |pairs| == |settings| && forall i | 0 <= i < |pairs| :: pairs[i] == PairOf(settings[i])
  {
    seq(|settings|, i requires 0 <= i < |settings| => PairOf(settings[i]))
  }

  function BoolText(b: bool): string { if b then "true" else "false" }

  /** What is in the file of a just-in-time runner. */
  function JitSettings(token: string, repoUrl: string, vmId: string, ephemeral: bool): seq<Setting> {
    [(RunnerMode, "jit"), (RunnerToken, token), (RepoUrl, repoUrl), (VmId, vmId), (RunnerJitConfig, token),
     (Hostname, vmId), (ShutdownOnExit, "true"), (Ephemeral, BoolText(ephemeral))]
  }

  /** What is in the file of a warm-pool runner. */
  function WarmSettings(token: string, url: string, runnerName: string, vmId: string, ephemeral: bool): seq<Setting> {
    [(RunnerMode, "register"), (RunnerToken, token), (RepoUrl, url), (RunnerName, runnerName), (VmId, vmId),
     (Hostname, vmId), (ShutdownOnExit, "true"), (Ephemeral, BoolText(ephemeral))]
  }

  datatype CacheConfig = CacheConfig(
    enabled: bool, token: Option<string>, listenAddr: string,
    endpoint: string, bucket: string, region: string,
    accessKey: Option<string>, secretKey: Option<string>)

  /** `rsplit(c).next()`: what follows the last `c`. */
  function LastPiece(s: string, c: char): string {
    if s == "" || s[|s| - 1] == c then "" else LastPiece(s[..|s| - 1], c) + [s[|s| - 1]]
  }

  function ParseU16(s: string): Option<nat> {
    var n := ParseU64(s);
    if n.Some? && n.value < 0x1_0000 then n else None
  }

  /** What follows the last separator is the piece, however many there are before it. */
  lemma {:induction false} LastPieceIs(a: string, c: char, b: string)
    requires c !in b
    ensures LastPiece(a + [c] + b, c) == b
  {
    var s := a + [c] + b;
    if b != "" {
      var n := |b| - 1;
      assert s[..|s| - 1] == a + [c] + b[..n];
      LastPieceIs(a, c, b[..n]);
      assert b == b[..n] + [b[n]];
    }
  }

  lemma {:induction false} LastPieceWhole(s: string, c: char)
    requires c !in s
    ensures LastPiece(s, c) == s
  {
    if s != "" {
      var n := |s| - 1;
      LastPieceWhole(s[..n], c);
      assert s == s[..n] + [s[n]];
    }
  }

  lemma PortOf(host: string, port: nat)
    ensures ParseU16(LastPiece(host + ":" + Decimal(port), ':')) == if port < 65536 then Some(port) else None
  {
    ValueOfNumeral(port, 10);
    assert ':' !in Decimal(port);
    LastPieceIs(host, ':', Decimal(port));
    ParseOfDecimal(port);
  }

  /** `str::replace`. */
  function Replace(s: string, from: string, to: string): string
    requires from != ""
    decreases |s|
  {
    if s == "" then ""
    else if from <= s then to + Replace(s[|from|..], from, to)
    else [s[0]] + Replace(s[1..], from, to)
  }

  predicate OccursAt(s: string, part: string, i: nat) { i + |part| <= |s| && s[i..i + |part|] == part }

  /** Where the pattern does not occur, nothing is replaced. */
  lemma {:induction false} ReplaceNowhere(s: string, from: string, to: string)
    requires from != "" && forall i: nat :: !OccursAt(s, from, i)
    ensures Replace(s, from, to) == s
    decreases |s|
  {
    if s != "" {
      assert !OccursAt(s, from, 0);
      forall i: nat
        ensures !OccursAt(s[1..], from, i)
      {
        if i + 1 + |from| <= |s| {
          assert s[1..][i..i + |from|] == s[i + 1..i + 1 + |from|];
        }
        assert !OccursAt(s, from, i + 1);
      }
      ReplaceNowhere(s[1..], from, to);
      assert s == [s[0]] + s[1..];
    }
  }

  /** The first occurrence of the pattern is replaced, and then those in what follows it. */
  lemma {:induction false} ReplaceFirst(a: string, from: string, b: string, to: string)
    requires from != "" && forall i | 0 <= i < |a| :: !OccursAt(a + from + b, from, i)
    ensures Replace(a + from + b, from, to) == a + to + Replace(b, from, to)
    decreases |a|
  {
    hide Replace, OccursAt;
    var s := a + from + b;
    if a == "" {
      assert s == from + b && a + to == to;
      ReplaceHit(from, b, to);
    } else {
      var rest := a[1..] + from + b;
      assert s == [a[0]] + rest;
      forall i | 0 <= i < |a[1..]|
        ensures !OccursAt(rest, from, i)
      {
        NotEarlier(a[0], rest, from, i);
      }
      ReplaceFirst(a[1..], from, b, to);
      ReplaceMiss(a[0], rest, from, to);
      Peeled(a, to, Replace(b, from, to));
    }
  }

  lemma Peeled(a: string, b: string, c: string)
    requires a != ""
    ensures [a[0]] + (a[1..] + b + c) == a + b + c
  {
  }

  lemma ReplaceHit(from: string, b: string, to: string)
    requires from != ""
    ensures Replace(from + b, from, to) == to + Replace(b, from, to)
  {
    assert (from + b)[|from|..] == b;
  }

  lemma ReplaceMiss(c: char, rest: string, from: string, to: string)
    requires from != "" && !OccursAt([c] + rest, from, 0)
    ensures Replace([c] + rest, from, to) == [c] + Replace(rest, from, to)
  {
    assert ([c] + rest)[1..] == rest;
    assert OccursAt([c] + rest, from, 0) <==> from <= [c] + rest;
  }

  lemma NotEarlier(c: char, rest: string, from: string, i: nat)
    requires !OccursAt([c] + rest, from, i + 1)
    ensures !OccursAt(rest, from, i)
  {
    assert i + |from| <= |rest| ==> rest[i..i + |from|] == ([c] + rest)[i + 1..i + 1 + |from|];
  }

  function GuestEndpoint(c: CacheConfig, hostIp: string): string {
    Replace(Replace(c.endpoint, "localhost", hostIp), "127.0.0.1", hostIp)
  }

  function GuestCacheUrl(hostIp: string, port: nat): string { "http://" + hostIp + ":" + Decimal(port) + "/" }

  /** The port of the listen address, if what follows its last colon is one. */
  function ListenPort(c: CacheConfig): Option<nat> { ParseU16(LastPiece(c.listenAddr, ':')) }

  /** The cache is announced only with a token and a listen port. */
  predicate Announced(c: CacheConfig) { c.enabled && c.token.Some? && ListenPort(c).Some? }

  function Optional(f: Field, value: Option<string>): seq<Setting> {
    if value.Some? then [(f, value.value)] else []
  }

  function CacheSettings(c: CacheConfig, hostIp: string): seq<Setting> {
    if !Announced(c) then []
    else
      ServiceSettings(c, hostIp) + Optional(S3AccessKey, c.accessKey) + Optional(S3SecretKey, c.secretKey)
  }

  function ServiceSettings(c: CacheConfig, hostIp: string): seq<Setting>
    requires Announced(c)
  {
    [(CacheUrl, GuestCacheUrl(hostIp, ListenPort(c).value)), (CacheToken, c.token.value),
     (S3Endpoint, GuestEndpoint(c, hostIp)), (S3Bucket, c.bucket), (S3Region, c.region)]
  }

  /** What a VM of a named pool is told of the cache: not where S3 is, nor the keys to it. */
  function PoolCacheSettings(c: CacheConfig, hostIp: string): seq<Setting> {
    if !Announced(c) then []
    else [(CacheUrl, GuestCacheUrl(hostIp, ListenPort(c).value)), (CacheToken, c.token.value)]
  }

  // ---- The lines of the cache, as the code spells them ----

  function OneLine(prefix: string, value: string): string { prefix + value + "\n" }

  function OptionalLine(prefix: string, value: Option<string>): string {
    if value.Some? then OneLine(prefix, value.value) else ""
  }

  /** What a just-in-time or warm-pool runner's file says of the cache. */
  function CacheText(c: CacheConfig, hostIp: string): string {
    if !c.enabled || c.token.None? || ListenPort(c).None? then ""
    else
      OneLine("CACHE_URL=", "http://" + hostIp + ":" + Decimal(ListenPort(c).value) + "/")
      + OneLine("CACHE_TOKEN=", c.token.value)
      + OneLine("S3_ENDPOINT=", GuestEndpoint(c, hostIp))
      + OneLine("S3_BUCKET=", c.bucket) + OneLine("S3_REGION=", c.region)
      + OptionalLine("S3_ACCESS_KEY=", c.accessKey) + OptionalLine("S3_SECRET_KEY=", c.secretKey)
  }

  /** What the file of a named pool's VM says of it. */
  function PoolCacheText(c: CacheConfig, hostIp: string): string {
    if !c.enabled || c.token.None? || ListenPort(c).None? then ""
    else
      OneLine("CACHE_URL=", "http://" + hostIp + ":" + Decimal(ListenPort(c).value) + "/")
      + OneLine("CACHE_TOKEN=", c.token.value)
  }

  lemma CachePrefixes()
    ensures "CACHE_URL=" == Key(CacheUrl) + "=" && "CACHE_TOKEN=" == Key(CacheToken) + "="
  {
  }

  lemma S3Prefixes()
    ensures "S3_ENDPOINT=" == Key(S3Endpoint) + "="
    ensures "S3_BUCKET=" == Key(S3Bucket) + "=" && "S3_REGION=" == Key(S3Region) + "="
  {
  }

  lemma S3SecretPrefixes()
    ensures "S3_ACCESS_KEY=" == Key(S3AccessKey) + "=" && "S3_SECRET_KEY=" == Key(S3SecretKey) + "="
  {
  }

  /** One more setting is one more line. */
  lemma RenderNext(settings: seq<Setting>, f: Field, value: string, prefix: string)
    requires prefix == Key(f) + "="
    ensures Render(Pairs(settings + [(f, value)])) == Render(Pairs(settings)) + OneLine(prefix, value)
  {
    RenderSettings(settings, [(f, value)]);
    RenderOne((f, value));
  }

  lemma RenderOptional(settings: seq<Setting>, f: Field, value: Option<string>, prefix: string)
    requires prefix == Key(f) + "="
    ensures Render(Pairs(settings + Optional(f, value))) == Render(Pairs(settings)) + OptionalLine(prefix, value)
  {
    if value.Some? {
      RenderNext(settings, f, value.value, prefix);
    } else {
      assert settings + [] == settings;
    }
  }

  lemma PoolTextIsRendered(c: CacheConfig, hostIp: string)
    ensures PoolCacheText(c, hostIp) == Render(Pairs(PoolCacheSettings(c, hostIp)))
  {
    if Announced(c) {
      var url := GuestCacheUrl(hostIp, ListenPort(c).value);
      CachePrefixes();
      RenderNext([], CacheUrl, url, "CACHE_URL=");
      RenderNext([] + [(CacheUrl, url)], CacheToken, c.token.value, "CACHE_TOKEN=");
      assert [] + [(CacheUrl, url)] + [(CacheToken, c.token.value)] == PoolCacheSettings(c, hostIp);
    }
  }

  lemma ServiceTextIsRendered(c: CacheConfig, hostIp: string)
    requires Announced(c)
    ensures Render(Pairs(ServiceSettings(c, hostIp))) == PoolCacheText(c, hostIp)
      + OneLine("S3_ENDPOINT=", GuestEndpoint(c, hostIp))
      + OneLine("S3_BUCKET=", c.bucket) + OneLine("S3_REGION=", c.region)
  {
    var s0, endpoint := PoolCacheSettings(c, hostIp), GuestEndpoint(c, hostIp);
    PoolTextIsRendered(c, hostIp);
    S3Prefixes();
    RenderNext(s0, S3Endpoint, endpoint, "S3_ENDPOINT=");
    RenderNext(s0 + [(S3Endpoint, endpoint)], S3Bucket, c.bucket, "S3_BUCKET=");
    RenderNext(s0 + [(S3Endpoint, endpoint)] + [(S3Bucket, c.bucket)], S3Region, c.region, "S3_REGION=");
    assert s0 + [(S3Endpoint, endpoint)] + [(S3Bucket, c.bucket)] + [(S3Region, c.region)]
        == ServiceSettings(c, hostIp);
  }

  /** The lines spelled out are the settings rendered. */
  lemma CacheTextIsRendered(c: CacheConfig, hostIp: string)
    ensures CacheText(c, hostIp) == Render(Pairs(CacheSettings(c, hostIp)))
  {
    if Announced(c) {
      ServiceTextIsRendered(c, hostIp);
      S3SecretPrefixes();
      RenderOptional(ServiceSettings(c, hostIp), S3AccessKey, c.accessKey, "S3_ACCESS_KEY=");
      RenderOptional(ServiceSettings(c, hostIp) + Optional(S3AccessKey, c.accessKey), S3SecretKey, c.secretKey,
                     "S3_SECRET_KEY=");
    }
  }

  lemma {:induction false} RenderAppend(a: seq<Pair>, b: seq<Pair>)
    ensures Render(a + b) == Render(a) + Render(b)
  {
    if a == [] {
      assert a + b == b;
    } else {
      assert (a + b)[1..] == a[1..] + b;
      RenderAppend(a[1..], b);
    }
  }

  lemma RenderSettings(a: seq<Setting>, b: seq<Setting>)
    ensures Render(Pairs(a + b)) == Render(Pairs(a)) + Render(Pairs(b))
  {
    assert Pairs(a + b) == Pairs(a) + Pairs(b);
    RenderAppend(Pairs(a), Pairs(b));
  }

  lemma RenderOne(setting: Setting)
    ensures Render(Pairs([setting])) == Line(PairOf(setting))
  {
    assert Pairs([setting])[1..] == [];
  }

  /** `push_str` of one more line. */
  method PushLine(envContent: string, ghost before: seq<Setting>, f: Field, value: string) returns (r: string)
    requires envContent == Render(Pairs(before))
    ensures r == Render(Pairs(before + [(f, value)]))
  {
    r := envContent + (Key(f) + "=" + value + "\n");
    RenderSettings(before, [(f, value)]);
    RenderOne((f, value));
  }

  method PushOptional(envContent: string, ghost before: seq<Setting>, f: Field, value: Option<string>)
    returns (r: string)
    requires envContent == Render(Pairs(before))
    ensures r == Render(Pairs(before + Optional(f, value)))
  {
    if value.Some? {
      r := PushLine(envContent, before, f, value.value);
    } else {
      r := envContent;
      assert before + [] == before;
    }
  }

  method PushService(c: CacheConfig, hostIp: string, port: nat, envContent: string, ghost before: seq<Setting>)
    returns (r: string)
    requires envContent == Render(Pairs(before))
    requires Announced(c) && ListenPort(c) == Some(port)
    ensures r == Render(Pairs(before + ServiceSettings(c, hostIp)))
  {
    var url, endpoint := GuestCacheUrl(hostIp, port), GuestEndpoint(c, hostIp);
    r := PushLine(envContent, before, CacheUrl, url);
    r := PushLine(r, before + [(CacheUrl, url)], CacheToken, c.token.value);
    ghost var done := before + [(CacheUrl, url)] + [(CacheToken, c.token.value)];
    r := PushLine(r, done, S3Endpoint, endpoint);
    r := PushLine(r, done + [(S3Endpoint, endpoint)], S3Bucket, c.bucket);
    done := done + [(S3Endpoint, endpoint)] + [(S3Bucket, c.bucket)];
    r := PushLine(r, done, S3Region, c.region);
    assert done + [(S3Region, c.region)] == before + ServiceSettings(c, hostIp);
  }

  /** Append the cache settings to the content of a VM's file. */
  method AppendCacheEnv(c: CacheConfig, hostIp: string, envContent: string, ghost before: seq<Setting>)
    returns (r: string)
    requires envContent == Render(Pairs(before))
    ensures r == Render(Pairs(before + CacheSettings(c, hostIp)))
    ensures r == envContent + CacheText(c, hostIp)
  {
    CacheTextIsRendered(c, hostIp);
    RenderSettings(before, CacheSettings(c, hostIp));
    r := envContent;
    var port := ListenPort(c);
    if c.enabled && c.token.Some? && port.Some? {
      r := PushService(c, hostIp, port.value, r, before);
      ghost var service := ServiceSettings(c, hostIp);
      r := PushOptional(r, before + service, S3AccessKey, c.accessKey);
      r := PushOptional(r, before + service + Optional(S3AccessKey, c.accessKey), S3SecretKey, c.secretKey);
      Associative(before, service, Optional(S3AccessKey, c.accessKey));
      Associative(before, service + Optional(S3AccessKey, c.accessKey), Optional(S3SecretKey, c.secretKey));
    } else {
      assert before + [] == before;
    }
  }

  /** One more line of a file whose next key is already written. */
  lemma Continue(text: string, settings: seq<Setting>, f: Field, value: string, next: string, g: Field)
    requires text == Render(Pairs(settings)) + (Key(f) + "=") && next == "\n" + (Key(g) + "=")
    ensures text + value + next == Render(Pairs(settings + [(f, value)])) + (Key(g) + "=")
  {
    RenderSettings(settings, [(f, value)]);
    RenderOne((f, value));
    Associative(Render(Pairs(settings)), Key(f) + "=", value);
    Associative(Render(Pairs(settings)) + (Key(f) + "=" + value), "\n", Key(g) + "=");
    Associative(Render(Pairs(settings)), Key(f) + "=" + value, "\n");
  }

  lemma Finish(text: string, settings: seq<Setting>, f: Field, value: string)
    requires text == Render(Pairs(settings)) + (Key(f) + "=")
    ensures text + value + "\n" == Render(Pairs(settings + [(f, value)]))
  {
    RenderSettings(settings, [(f, value)]);
    RenderOne((f, value));
    Associative(Render(Pairs(settings)), Key(f) + "=", value);
    Associative(Render(Pairs(settings)), Key(f) + "=" + value, "\n");
  }

  lemma RunnerSeparators()
    ensures "\nRUNNER_TOKEN=" == "\n" + (Key(RunnerToken) + "=") && "\nREPO_URL=" == "\n" + (Key(RepoUrl) + "=")
    ensures "\nVM_ID=" == "\n" + (Key(VmId) + "=") && "\nRUNNER_NAME=" == "\n" + (Key(RunnerName) + "=")
  {
  }

  lemma VmSeparators()
    ensures "\nRUNNER_JIT_CONFIG=" == "\n" + (Key(RunnerJitConfig) + "=")
    ensures "\nHOSTNAME=" == "\n" + (Key(Hostname) + "=")
    ensures "\nSHUTDOWN_ON_EXIT=" == "\n" + (Key(ShutdownOnExit) + "=")
    ensures "\nEPHEMERAL=" == "\n" + (Key(Ephemeral) + "=")
  {
  }

  lemma Separators()
    ensures "\nRUNNER_TOKEN=" == "\n" + (Key(RunnerToken) + "=") && "\nREPO_URL=" == "\n" + (Key(RepoUrl) + "=")
    ensures "\nVM_ID=" == "\n" + (Key(VmId) + "=") && "\nRUNNER_NAME=" == "\n" + (Key(RunnerName) + "=")
    ensures "\nRUNNER_JIT_CONFIG=" == "\n" + (Key(RunnerJitConfig) + "=")
    ensures "\nHOSTNAME=" == "\n" + (Key(Hostname) + "=")
    ensures "\nSHUTDOWN_ON_EXIT=" == "\n" + (Key(ShutdownOnExit) + "=")
    ensures "\nEPHEMERAL=" == "\n" + (Key(Ephemeral) + "=")
  {
    RunnerSeparators();
    VmSeparators();
  }

  /** The format string of a just-in-time runner, filled in. */
  function JitText(token: string, repoUrl: string, vmId: string, ephemeral: bool): string {
    "RUNNER_MODE=jit\nRUNNER_TOKEN=" + token + "\nREPO_URL=" + repoUrl + "\nVM_ID=" + vmId
    + "\nRUNNER_JIT_CONFIG=" + token + "\nHOSTNAME=" + vmId
    + "\nSHUTDOWN_ON_EXIT=true\nEPHEMERAL=" + BoolText(ephemeral) + "\n"
  }

  /** The format string of a warm-pool runner, filled in. */
  function WarmText(token: string, url: string, runnerName: string, vmId: string, ephemeral: bool): string {
    "RUNNER_MODE=register\nRUNNER_TOKEN=" + token + "\nREPO_URL=" + url + "\nRUNNER_NAME=" + runnerName
    + "\nVM_ID=" + vmId
    + "\nHOSTNAME=" + vmId + "\nSHUTDOWN_ON_EXIT=true\nEPHEMERAL=" + BoolText(ephemeral) + "\n"
  }

  /** The first line of either file. */
  lemma FirstLine(mode: string, text: string)
    requires text == "RUNNER_MODE=" + mode + "\nRUNNER_TOKEN="
    ensures text == Render(Pairs([(RunnerMode, mode)])) + (Key(RunnerToken) + "=")
  {
    Separators();
    assert Render(Pairs([])) == "";
    assert "RUNNER_MODE=" == "" + (Key(RunnerMode) + "=");
    Continue("RUNNER_MODE=", [], RunnerMode, mode, "\nRUNNER_TOKEN=", RunnerToken);
    assert [] + [(RunnerMode, mode)] == [(RunnerMode, mode)];
  }

  lemma JitMode()
    ensures "RUNNER_MODE=jit\nRUNNER_TOKEN=" == "RUNNER_MODE=" + "jit" + "\nRUNNER_TOKEN="
  {
  }

  lemma WarmMode()
    ensures "RUNNER_MODE=register\nRUNNER_TOKEN=" == "RUNNER_MODE=" + "register" + "\nRUNNER_TOKEN="
  {
  }

  lemma FlagPieces()
    ensures "\nSHUTDOWN_ON_EXIT=true\nEPHEMERAL=" == "\nSHUTDOWN_ON_EXIT=" + "true" + "\nEPHEMERAL="
  {
  }

  /** The last three lines of either file. */
  lemma LastLines(text: string, settings: seq<Setting>, vmId: string, flag: string)
    requires text == Render(Pairs(settings)) + (Key(Hostname) + "=")
    ensures text + vmId + "\nSHUTDOWN_ON_EXIT=true\nEPHEMERAL=" + flag + "\n" ==
      Render(Pairs(settings + [(Hostname, vmId)] + [(ShutdownOnExit, "true")] + [(Ephemeral, flag)]))
  {
    FlagPieces();
    Separators();
    var t1 := text + vmId + "\nSHUTDOWN_ON_EXIT=";
    Continue(text, settings, Hostname, vmId, "\nSHUTDOWN_ON_EXIT=", ShutdownOnExit);
    Continue(t1, settings + [(Hostname, vmId)], ShutdownOnExit, "true", "\nEPHEMERAL=", Ephemeral);
    Finish(t1 + "true" + "\nEPHEMERAL=", settings + [(Hostname, vmId)] + [(ShutdownOnExit, "true")], Ephemeral, flag);
    Associative(text + vmId, "\nSHUTDOWN_ON_EXIT=", "true");
    Associative(text + vmId, "\nSHUTDOWN_ON_EXIT=" + "true", "\nEPHEMERAL=");
  }

  lemma JitHead(token: string, repoUrl: string, vmId: string, t0: string, s0: seq<Setting>)
    requires t0 == Render(Pairs(s0)) + (Key(RunnerToken) + "=")
    ensures t0 + token + "\nREPO_URL=" + repoUrl + "\nVM_ID=" + vmId + "\nRUNNER_JIT_CONFIG=" + token + "\nHOSTNAME=" ==
      Render(Pairs(s0 + [(RunnerToken, token)] + [(RepoUrl, repoUrl)] + [(VmId, vmId)] + [(RunnerJitConfig, token)]))
        + (Key(Hostname) + "=")
  {
    Separators();
    Continue(t0, s0, RunnerToken, token, "\nREPO_URL=", RepoUrl);
    var t1, s1 := t0 + token + "\nREPO_URL=", s0 + [(RunnerToken, token)];
    Continue(t1, s1, RepoUrl, repoUrl, "\nVM_ID=", VmId);
    var t2, s2 := t1 + repoUrl + "\nVM_ID=", s1 + [(RepoUrl, repoUrl)];
    Continue(t2, s2, VmId, vmId, "\nRUNNER_JIT_CONFIG=", RunnerJitConfig);
    Continue(t2 + vmId + "\nRUNNER_JIT_CONFIG=", s2 + [(VmId, vmId)], RunnerJitConfig, token, "\nHOSTNAME=", Hostname);
  }

  /** The format string prints exactly the settings. */
  lemma JitTextIsRendered(token: string, repoUrl: string, vmId: string, ephemeral: bool)
    ensures JitText(token, repoUrl, vmId, ephemeral) == Render(Pairs(JitSettings(token, repoUrl, vmId, ephemeral)))
  {
    var t0, s0 := "RUNNER_MODE=jit\nRUNNER_TOKEN=", [(RunnerMode, "jit")];
    JitMode();
    FirstLine("jit", t0);
    JitHead(token, repoUrl, vmId, t0, s0);
    var s4 := s0 + [(RunnerToken, token)] + [(RepoUrl, repoUrl)] + [(VmId, vmId)] + [(RunnerJitConfig, token)];
    var t4 := t0 + token + "\nREPO_URL=" + repoUrl + "\nVM_ID=" + vmId + "\nRUNNER_JIT_CONFIG=" + token + "\nHOSTNAME=";
    LastLines(t4, s4, vmId, BoolText(ephemeral));
    assert s4 + [(Hostname, vmId)] + [(ShutdownOnExit, "true")] + [(Ephemeral, BoolText(ephemeral))]
        == JitSettings(token, repoUrl, vmId, ephemeral);
  }

  lemma WarmHead(token: string, url: string, runnerName: string, vmId: string, t0: string, s0: seq<Setting>)
    requires t0 == Render(Pairs(s0)) + (Key(RunnerToken) + "=")
    ensures t0 + token + "\nREPO_URL=" + url + "\nRUNNER_NAME=" + runnerName + "\nVM_ID=" + vmId + "\nHOSTNAME=" ==
      Render(Pairs(s0 + [(RunnerToken, token)] + [(RepoUrl, url)] + [(RunnerName, runnerName)] + [(VmId, vmId)]))
        + (Key(Hostname) + "=")
  {
    Separators();
    Continue(t0, s0, RunnerToken, token, "\nREPO_URL=", RepoUrl);
    var t1, s1 := t0 + token + "\nREPO_URL=", s0 + [(RunnerToken, token)];
    Continue(t1, s1, RepoUrl, url, "\nRUNNER_NAME=", RunnerName);
    var t2, s2 := t1 + url + "\nRUNNER_NAME=", s1 + [(RepoUrl, url)];
    Continue(t2, s2, RunnerName, runnerName, "\nVM_ID=", VmId);
    Continue(t2 + runnerName + "\nVM_ID=", s2 + [(RunnerName, runnerName)], VmId, vmId, "\nHOSTNAME=", Hostname);
  }

  lemma WarmTextIsRendered(token: string, url: string, runnerName: string, vmId: string, ephemeral: bool)
    ensures WarmText(token, url, runnerName, vmId, ephemeral) ==
      Render(Pairs(WarmSettings(token, url, runnerName, vmId, ephemeral)))
  {
    var t0, s0 := "RUNNER_MODE=register\nRUNNER_TOKEN=", [(RunnerMode, "register")];
    WarmMode();
    FirstLine("register", t0);
    WarmHead(token, url, runnerName, vmId, t0, s0);
    var s4 := s0 + [(RunnerToken, token)] + [(RepoUrl, url)] + [(RunnerName, runnerName)] + [(VmId, vmId)];
    var t4 := t0 + token + "\nREPO_URL=" + url + "\nRUNNER_NAME=" + runnerName + "\nVM_ID=" + vmId + "\nHOSTNAME=";
    LastLines(t4, s4, vmId, BoolText(ephemeral));
    assert s4 + [(Hostname, vmId)] + [(ShutdownOnExit, "true")] + [(Ephemeral, BoolText(ephemeral))]
        == WarmSettings(token, url, runnerName, vmId, ephemeral);
  }

  /** The file of a just-in-time runner. */
  method JitEnv(token: string, repoUrl: string, vmId: string, ephemeral: bool, c: CacheConfig, hostIp: string)
    returns (r: string)
    ensures r == Render(Pairs(JitSettings(token, repoUrl, vmId, ephemeral) + CacheSettings(c, hostIp)))
    ensures r == JitText(token, repoUrl, vmId, ephemeral) + CacheText(c, hostIp)
  {
    r := JitText(token, repoUrl, vmId, ephemeral);
    JitTextIsRendered(token, repoUrl, vmId, ephemeral);
    r := AppendCacheEnv(c, hostIp, r, JitSettings(token, repoUrl, vmId, ephemeral));
  }

  /** The file of a warm-pool runner. */
  method WarmEnv(token: string, url: string, runnerName: string, vmId: string, ephemeral: bool, c: CacheConfig,
                 hostIp: string)
    returns (r: string)
    ensures r == Render(Pairs(WarmSettings(token, url, runnerName, vmId, ephemeral) + CacheSettings(c, hostIp)))
    ensures r == WarmText(token, url, runnerName, vmId, ephemeral) + CacheText(c, hostIp)
  {
    r := WarmText(token, url, runnerName, vmId, ephemeral);
    WarmTextIsRendered(token, url, runnerName, vmId, ephemeral);
    r := AppendCacheEnv(c, hostIp, r, WarmSettings(token, url, runnerName, vmId, ephemeral));
  }

  /** The file of a VM of a named pool: the same format string, and less of the cache. */
  method PoolEnv(token: string, url: string, runnerName: string, vmId: string, ephemeral: bool,
                 c: CacheConfig, hostIp: string)
    returns (r: string)
    ensures r == Render(Pairs(WarmSettings(token, url, runnerName, vmId, ephemeral) + PoolCacheSettings(c, hostIp)))
    ensures r == WarmText(token, url, runnerName, vmId, ephemeral) + PoolCacheText(c, hostIp)
  {
    ghost var before := WarmSettings(token, url, runnerName, vmId, ephemeral);
    r := WarmText(token, url, runnerName, vmId, ephemeral);
    WarmTextIsRendered(token, url, runnerName, vmId, ephemeral);
    PoolTextIsRendered(c, hostIp);
    RenderSettings(before, PoolCacheSettings(c, hostIp));
    var port := ListenPort(c);
    if c.enabled && c.token.Some? && port.Some? {
      r := PushCache(GuestCacheUrl(hostIp, port.value), c.token.value, r, before);
    } else {
      assert before + [] == before;
    }
  }

  method PushCache(url: string, token: string, envContent: string, ghost before: seq<Setting>) returns (r: string)
    requires envContent == Render(Pairs(before))
    ensures r == Render(Pairs(before + [(CacheUrl, url), (CacheToken, token)]))
  {
    r := PushLine(envContent, before, CacheUrl, url);
    r := PushLine(r, before + [(CacheUrl, url)], CacheToken, token);
    assert before + [(CacheUrl, url)] + [(CacheToken, token)] == before + [(CacheUrl, url), (CacheToken, token)];
  }

  // ---- Reading ----

  /** The agent's struct; the fields it does not have are ignored. */
  datatype Agent = Agent(
    runnerMode: Option<string>, runnerToken: Option<string>, repoUrl: Option<string>,
    runnerJitConfig: Option<string>, runnerName: Option<string>, hostname: string,
    shutdownOnExit: bool, ephemeral: bool,
    cacheUrl: Option<string>, cacheToken: Option<string>, s3Endpoint: Option<string>, s3Bucket: Option<string>,
    s3Region: Option<string>, s3AccessKey: Option<string>, s3SecretKey: Option<string>)

  predicate IsFlag(f: Field) { f.ShutdownOnExit? || f.Ephemeral? }

  /** Every field the struct has is of its type, and the mandatory one is there. */
  predicate Deserializes(m: Metadata) {
    && Name(Hostname) in m
    && forall f: Field | !f.VmId? && Name(f) in m :: m[Name(f)].Bool? <==> IsFlag(f)
  }

  function TextField(m: Metadata, f: Field): Option<string> {
    if Name(f) in m && m[Name(f)].Str? then Some(m[Name(f)].text) else None
  }

  function FlagField(m: Metadata, f: Field, default: bool): bool {
    if Name(f) in m && m[Name(f)].Bool? then m[Name(f)].flag else default
  }

  /** Deserialization of the agent's struct: `None` if some field has the wrong type or is missing. */
  function ReadAgent(m: Metadata): Option<Agent> {
    if !Deserializes(m) then None
    else Some(Agent(
      TextField(m, RunnerMode), TextField(m, RunnerToken), TextField(m, RepoUrl),
      TextField(m, RunnerJitConfig), TextField(m, RunnerName), TextField(m, Hostname).value,
      FlagField(m, ShutdownOnExit, false), FlagField(m, Ephemeral, true),
      TextField(m, CacheUrl), TextField(m, CacheToken), TextField(m, S3Endpoint), TextField(m, S3Bucket),
      TextField(m, S3Region), TextField(m, S3AccessKey), TextField(m, S3SecretKey)))
  }

  // ---- End to end ----

  /** The last value set for a field. */
  function Last(settings: seq<Setting>, f: Field): Option<string> {
    if settings == [] then None
    else if settings[|settings| - 1].0 == f then Some(settings[|settings| - 1].1)
    else Last(settings[..|settings| - 1], f)
  }

  ghost predicate OnLines(settings: seq<Setting>) {
    forall i | 0 <= i < |settings| :: '\n' !in settings[i].1
  }

  lemma PairsOnOneLine(settings: seq<Setting>)
    requires OnLines(settings)
    ensures forall pair | pair in Pairs(settings) :: OnOneLine(pair)
  {
    forall pair | pair in Pairs(settings)
      ensures OnOneLine(pair)
    {
      var i :| 0 <= i < |settings| && Pairs(settings)[i] == pair;
      KeyShape(settings[i].0);
      KeyIsPlain(Key(settings[i].0));
    }
  }

  lemma {:induction false} CollectedAppend(lower: Lowering, a: seq<Pair>, b: seq<Pair>)
    ensures Collected(lower, a + b) == Collected(lower, a) + Collected(lower, b)
  {
    if a == [] {
      assert a + b == b;
    } else {
      assert (a + b)[1..] == a[1..] + b;
      CollectedAppend(lower, a[1..], b);
      MergeAssociative(Mmds.Entry(lower, a[0]), Collected(lower, a[1..]), Collected(lower, b));
    }
  }

  lemma CollectedLast(lower: Lowering, pairs: seq<Pair>, pair: Pair)
    ensures Collected(lower, pairs + [pair]) == Collected(lower, pairs)[lower(Trim(pair.0)) := ValueOf(Trim(pair.1))]
  {
    CollectedAppend(lower, pairs, [pair]);
    assert [pair][1..] == [];
  }

  lemma CollectedNext(lower: Lowering, before: seq<Setting>, setting: Setting)
    requires LowersAscii(lower)
    ensures Collected(lower, Pairs(before + [setting])) ==
      Collected(lower, Pairs(before))[Name(setting.0) := ValueOf(Trim(setting.1))]
  {
    var pair := PairOf(setting);
    assert Pairs(before + [setting]) == Pairs(before) + [pair];
    CollectedLast(lower, Pairs(before), pair);
    KeyBecomesName(lower, setting.0, pair.0, Name(setting.0));
  }

  /** The map built from settings holds for each field the last value set, trimmed, under the agent's name. */
  lemma {:induction false} FieldInCollected(lower: Lowering, settings: seq<Setting>, f: Field)
    requires LowersAscii(lower)
    ensures var m, last := Collected(lower, Pairs(settings)), Last(settings, f);
      (Name(f) in m <==> last.Some?) && (last.Some? ==> m[Name(f)] == ValueOf(Trim(last.value)))
  {
    if settings != [] {
      var n := |settings| - 1;
      var before, setting := settings[..n], settings[n];
      assert settings == before + [setting];
      FieldInCollected(lower, before, f);
      CollectedNext(lower, before, setting);
      if setting.0 != f {
        NamesDiffer(setting.0, f);
      }
    }
  }

  /** What the parser makes of a rendered file, field by field. */
  lemma ParsedField(lower: Lowering, settings: seq<Setting>, f: Field)
    requires LowersAscii(lower) && OnLines(settings)
    ensures var m, last := Parse(lower, Render(Pairs(settings))), Last(settings, f);
      (Name(f) in m <==> last.Some?) && (last.Some? ==> m[Name(f)] == ValueOf(Trim(last.value)))
  {
    PairsOnOneLine(settings);
    RoundTrip(lower, Pairs(settings));
    FieldInCollected(lower, settings, f);
  }
}
