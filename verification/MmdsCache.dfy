/** What an agent knows of the cache, told from the host's configuration alone. */
module MmdsCache {
  import opened Wrappers
  import opened Text
  import opened Mmds
  import opened MmdsEnv
  import opened MmdsAgent

  /** The listen address ends in a colon and this port. */
  predicate ListensOn(c: CacheConfig, host: string, port: nat) { c.listenAddr == host + ":" + Decimal(port) }

  /** The cache is announced: it is enabled, has a token, and the port is one. */
  predicate ToldTo(c: CacheConfig, port: nat) { c.enabled && c.token.Some? && port < 65536 }

  /** The agent knows the cache by the host's address and port, and the token; or nothing of it. */
  ghost predicate FindsCache(agent: Agent, c: CacheConfig, hostIp: string, port: nat) {
    if ToldTo(c, port) then
      && agent.cacheUrl == Some("http://" + hostIp + ":" + Decimal(port) + "/")
      && agent.cacheToken == Some(Trim(c.token.value))
    else agent.cacheUrl == None && agent.cacheToken == None
  }

  /** The agent knows S3 as configured, by an address it can reach; or nothing of it. */
  ghost predicate FindsS3(agent: Agent, c: CacheConfig, hostIp: string, port: nat) {
    if ToldTo(c, port) then
      && agent.s3Endpoint == Some(Trim(Replace(Replace(c.endpoint, "localhost", hostIp), "127.0.0.1", hostIp)))
      && agent.s3Bucket == Some(Trim(c.bucket)) && agent.s3Region == Some(Trim(c.region))
      && agent.s3AccessKey == Trimmed(c.accessKey) && agent.s3SecretKey == Trimmed(c.secretKey)
    else KnowsNoS3(agent)
  }

  predicate KnowsNoS3(agent: Agent) {
    && agent.s3Endpoint == None && agent.s3Bucket == None && agent.s3Region == None
    && agent.s3AccessKey == None && agent.s3SecretKey == None
  }

  lemma PortIsAnnounced(c: CacheConfig, host: string, port: nat)
    requires ListensOn(c, host, port)
    ensures Announced(c) <==> ToldTo(c, port)
    ensures Announced(c) ==> ListenPort(c) == Some(port)
  {
    PortOf(host, port);
  }

  lemma CarriedIsFound(agent: Agent, c: CacheConfig, hostIp: string, host: string, port: nat)
    requires ListensOn(c, host, port) && CarriesCache(agent, c, hostIp)
    ensures FindsCache(agent, c, hostIp, port) && FindsS3(agent, c, hostIp, port)
  {
    hide ListensOn;
    PortIsAnnounced(c, host, port);
    CarriedCacheIsFound(agent, c, hostIp, port);
    CarriedS3IsFound(agent, c, hostIp, port);
  }

  lemma CarriedCacheIsFound(agent: Agent, c: CacheConfig, hostIp: string, port: nat)
    requires (Announced(c) <==> ToldTo(c, port)) && (Announced(c) ==> ListenPort(c) == Some(port))
    requires CarriesCache(agent, c, hostIp)
    ensures FindsCache(agent, c, hostIp, port)
  {
    hide Announced, ListenPort, GuestEndpoint, Trim;
  }

  lemma CarriedS3IsFound(agent: Agent, c: CacheConfig, hostIp: string, port: nat)
    requires (Announced(c) <==> ToldTo(c, port)) && CarriesCache(agent, c, hostIp)
    ensures FindsS3(agent, c, hostIp, port)
  {
    hide Announced, ToldTo, ListenPort, Replace, Trim, GuestCacheUrl;
  }

  lemma PoolCarriedIsFound(agent: Agent, c: CacheConfig, hostIp: string, host: string, port: nat)
    requires ListensOn(c, host, port) && CarriesPoolCache(agent, c, hostIp)
    ensures FindsCache(agent, c, hostIp, port) && KnowsNoS3(agent)
  {
    PortIsAnnounced(c, host, port);
  }

  /**
   A just-in-time runner whose agent starts from the file the host writes: with the service
   listening on a port, it finds the cache there, and S3.
   */
  lemma JitAgentFindsCache(lower: Lowering, token: string, repoUrl: string, vmId: string, ephemeral: bool,
                           c: CacheConfig, hostIp: string, host: string, port: nat, file: string, agent: Agent)
    requires LowersAscii(lower) && CacheOnLines(c, hostIp) && ListensOn(c, host, port)
    requires '\n' !in token && '\n' !in repoUrl && '\n' !in vmId
    requires file == JitText(token, repoUrl, vmId, ephemeral) + CacheText(c, hostIp)
    requires ReadAgent(Parse(lower, file)) == Some(agent)
    ensures FindsCache(agent, c, hostIp, port) && FindsS3(agent, c, hostIp, port)
    ensures IsJitAgent(agent, token, repoUrl, vmId, ephemeral)
  {
    hide ReadAgent, Parse, Render, JitText, CacheText, CarriesCache, FindsCache, FindsS3;
    var base := JitSettings(token, repoUrl, vmId, ephemeral);
    JitTextIsRendered(token, repoUrl, vmId, ephemeral);
    CacheTextIsRendered(c, hostIp);
    RenderSettings(base, CacheSettings(c, hostIp));
    JitAgent(lower, token, repoUrl, vmId, ephemeral, c, hostIp, base, file);
    CarriedIsFound(agent, c, hostIp, host, port);
  }

  /** So does a warm-pool runner. */
  lemma WarmAgentFindsCache(lower: Lowering, token: string, url: string, runnerName: string, vmId: string,
                            ephemeral: bool, c: CacheConfig, hostIp: string, host: string, port: nat,
                            file: string, agent: Agent)
    requires LowersAscii(lower) && CacheOnLines(c, hostIp) && ListensOn(c, host, port)
    requires '\n' !in token && '\n' !in url && '\n' !in runnerName && '\n' !in vmId
    requires file == WarmText(token, url, runnerName, vmId, ephemeral) + CacheText(c, hostIp)
    requires ReadAgent(Parse(lower, file)) == Some(agent)
    ensures FindsCache(agent, c, hostIp, port) && FindsS3(agent, c, hostIp, port)
    ensures IsWarmAgent(agent, token, url, runnerName, vmId, ephemeral)
  {
    hide ReadAgent, Parse, Render, WarmText, CacheText, CarriesCache, FindsCache, FindsS3;
    var base := WarmSettings(token, url, runnerName, vmId, ephemeral);
    WarmTextIsRendered(token, url, runnerName, vmId, ephemeral);
    CacheTextIsRendered(c, hostIp);
    RenderSettings(base, CacheSettings(c, hostIp));
    WarmAgent(lower, token, url, runnerName, vmId, ephemeral, c, hostIp, base, file);
    CarriedIsFound(agent, c, hostIp, host, port);
  }

  /** A VM of a named pool finds the cache, but never learns of S3. */
  lemma PoolAgentFindsCache(lower: Lowering, token: string, url: string, runnerName: string, vmId: string,
                            ephemeral: bool, c: CacheConfig, hostIp: string, host: string, port: nat,
                            file: string, agent: Agent)
    requires LowersAscii(lower) && CacheOnLines(c, hostIp) && ListensOn(c, host, port)
    requires '\n' !in token && '\n' !in url && '\n' !in runnerName && '\n' !in vmId
    requires file == WarmText(token, url, runnerName, vmId, ephemeral) + PoolCacheText(c, hostIp)
    requires ReadAgent(Parse(lower, file)) == Some(agent)
    ensures FindsCache(agent, c, hostIp, port) && KnowsNoS3(agent)
    ensures IsWarmAgent(agent, token, url, runnerName, vmId, ephemeral)
  {
    hide ReadAgent, Parse, Render, WarmText, PoolCacheText, CarriesPoolCache, FindsCache;
    var base := WarmSettings(token, url, runnerName, vmId, ephemeral);
    WarmTextIsRendered(token, url, runnerName, vmId, ephemeral);
    PoolTextIsRendered(c, hostIp);
    RenderSettings(base, PoolCacheSettings(c, hostIp));
    PoolAgent(lower, token, url, runnerName, vmId, ephemeral, c, hostIp, base, file);
    PoolCarriedIsFound(agent, c, hostIp, host, port);
  }

  // ---- S3 on the host itself ----

  /** The text does not contain the part. */
  ghost predicate Free(s: string, part: string) { forall i: nat :: !OccursAt(s, part, i) }

  /** An endpoint on the host's own name is rewritten to the address the guest sees. */
  lemma LocalhostIsRewritten(c: CacheConfig, hostIp: string, tail: string)
    requires c.endpoint == "http://localhost" + tail
    requires Free(tail, "localhost") && Free("http://" + hostIp + tail, "127.0.0.1")
    ensures GuestEndpoint(c, hostIp) == "http://" + hostIp + tail
  {
    hide Replace, OccursAt;
    assert c.endpoint == "http://" + "localhost" + tail;
    SchemeClean("localhost", tail);
    ReplaceFirst("http://", "localhost", tail, hostIp);
    ReplaceNowhere(tail, "localhost", hostIp);
    ReplaceNowhere("http://" + hostIp + tail, "127.0.0.1", hostIp);
  }

  /** So is one on its loopback address. */
  lemma LoopbackIsRewritten(c: CacheConfig, hostIp: string, tail: string)
    requires c.endpoint == "http://127.0.0.1" + tail
    requires Free("http://127.0.0.1" + tail, "localhost") && Free(tail, "127.0.0.1")
    ensures GuestEndpoint(c, hostIp) == "http://" + hostIp + tail
  {
    hide Replace, OccursAt;
    ReplaceNowhere(c.endpoint, "localhost", hostIp);
    assert c.endpoint == "http://" + "127.0.0.1" + tail;
    SchemeClean("127.0.0.1", tail);
    ReplaceFirst("http://", "127.0.0.1", tail, hostIp);
    ReplaceNowhere(tail, "127.0.0.1", hostIp);
  }

  lemma SchemeClean(part: string, tail: string)
    requires part != "" && part[0] !in "htp:/"
    ensures forall i | 0 <= i < |"http://"| :: !OccursAt("http://" + part + tail, part, i)
  {
    var s := "http://" + part + tail;
    forall i | 0 <= i < |"http://"|
      ensures !OccursAt(s, part, i)
    {
      assert s[i] == "http://"[i] && s[i] in "htp:/";
      assert i + |part| <= |s| ==> s[i..i + |part|][0] == s[i];
    }
  }

  /** Any other endpoint stays as it is. */
  lemma RemoteEndpointStays(c: CacheConfig, hostIp: string)
    requires Free(c.endpoint, "localhost") && Free(c.endpoint, "127.0.0.1")
    ensures GuestEndpoint(c, hostIp) == c.endpoint
  {
    ReplaceNowhere(c.endpoint, "localhost", hostIp);
    ReplaceNowhere(c.endpoint, "127.0.0.1", hostIp);
  }
}
