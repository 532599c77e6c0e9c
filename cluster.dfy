/**
 The membership store of one cluster node, `ServerListManager`: the full member
 list, the healthy list, the heartbeat-timestamp table, the per-site record
 table and the listeners, with the refresh task, the report task, heartbeat
 ingestion and the liveness check as methods that update them in place.

 Time, the configuration read and the node's own ip and port are parameters;
 heartbeats handed to the transport and notification batches handed to the
 executor are appended to ghost logs.
 */
module Cluster {
  import opened Servers
  import opened Heartbeat
  import opened SiteTable
  import opened Liveness
  import opened Reconcile

  /** A registered consumer of membership changes. */
  datatype Listener = Listener(name: string)

  /** One batch handed to the executor: every listener, in registration order, is given
      the full list and then the healthy list. */
  datatype Notification = Notification(listeners: seq<Listener>, servers: seq<Server>, healthy: seq<Server>)

  /** One heartbeat handed to the transport for the member with key `address`. */
  datatype Send = Send(address: string, data: string)

  /** What became of one received payload: the empty payload is ignored, a malformed one
      is refused (the code throws), a well-formed one yields the sender's new record. */
  datatype Ingest = Ignored | Rejected(error: ParseError) | Accepted(server: Server)

  /** Ingestion's reading of a payload against the timestamp table it finds: the sender's
      record, whose `alive` hint is set only when a previous beat is on record. */
  function Receive(serverStatus: string, beats: map<string, int>, now: int): Ingest
  {
    if |serverStatus| == 0 then Ignored
    else match ParsePayload(serverStatus)
      case Err(e) => Rejected(e)
      case Ok(b) =>
        var key := Address(b.ip, b.port);
        Accepted(Server(b.site, b.ip, b.port, key in beats && Alive(now, beats[key]), b.lastRefTime))
  }

  /** The payload a node with this ip and port reports at `now`. */
  function SelfPayload(serverIp: string, serverPort: int, now: int): string
  {
    BuildPayload(LOCALHOST_SITE, Address(serverIp, serverPort), now)
  }

  /** The heartbeats one report sends: one per listed member whose key is not the node's
      own address, in list order, each carrying the same payload. */
  function PeerSends(servers: seq<Server>, serverAddr: string, status: string): seq<Send>
  {
    if servers == [] then []
    else
      var s := servers[|servers| - 1];
      PeerSends(servers[..|servers| - 1], serverAddr, status)
        + (if Key(s) == serverAddr then [] else [Send(Key(s), status)])
  }

  /** The local site's list as the corrected check reads it: a missing entry is empty. */
  function LocalSiteList(config: map<string, seq<Server>>): seq<Server>
  {
    if LOCALHOST_SITE in config then config[LOCALHOST_SITE] else []
  }

  /** A node's own payload is accepted, and yields a local-site record with the node's ip,
      port and send time, whose key is the node's address. */
  lemma ReceiveSelfPayload(serverIp: string, serverPort: int, now: int, beats: map<string, int>)
    requires WellFormed(LOCALHOST_SITE, serverIp, serverPort, now)
    ensures Receive(SelfPayload(serverIp, serverPort, now), beats, now).Accepted?
    ensures Receive(SelfPayload(serverIp, serverPort, now), beats, now).server
         == Server(LOCALHOST_SITE, serverIp, serverPort,
                   Address(serverIp, serverPort) in beats && Alive(now, beats[Address(serverIp, serverPort)]), now)
    ensures Key(Receive(SelfPayload(serverIp, serverPort, now), beats, now).server) == Address(serverIp, serverPort)
  {
    PayloadRoundTrip(LOCALHOST_SITE, serverIp, serverPort, now);
  }

  /** A payload missing its timestamp is refused before any table is touched. */
  lemma ReceiveTruncatedPayload(beats: map<string, int>, now: int)
    ensures Receive("cluster_status#bad", beats, now).Rejected?
  {
    TruncatedPayloadRejected();
  }

  /** One send per listed member other than the node itself, in list order, all carrying
      the report's payload. */
  lemma {:induction false} PeerSendsSpec(servers: seq<Server>, serverAddr: string, status: string)
    ensures |PeerSends(servers, serverAddr, status)| == |Without(servers, {serverAddr})|
    ensures forall j :: 0 <= j < |PeerSends(servers, serverAddr, status)| ==>
      PeerSends(servers, serverAddr, status)[j] == Send(Key(Without(servers, {serverAddr})[j]), status)
  {
    if servers != [] {
      var init, s := servers[..|servers| - 1], servers[|servers| - 1];
      PeerSendsSpec(init, serverAddr, status);
      assert servers == init + [s];
      WithoutConcat(init, [s], {serverAddr});
      assert Without([s], {serverAddr}) == (if Key(s) == serverAddr then [] else [s]) + Without([], {serverAddr});
    }
  }

  class ServerListManager {
    /** Every member, healthy or not. */
    var servers: seq<Server>
    var listeners: seq<Listener>
    /** The members last found alive. */
    var healthyServers: seq<Server>
    /** Address key to the local time its last heartbeat arrived. */
    var distroBeats: map<string, int>
    /** Site tag to the latest records received for that site. */
    var distroConfig: map<string, seq<Server>>
    /** Batches handed to the executor, oldest first. */
    ghost var notifications: seq<Notification>
    /** Heartbeats handed to the transport, oldest first. */
    ghost var sent: seq<Send>

    constructor ()
      ensures servers == [] && listeners == [] && healthyServers == []
      ensures distroBeats == map[] && distroConfig == map[]
      ensures notifications == [] && sent == []
    {
      servers := [];
      listeners := [];
      healthyServers := [];
      distroBeats := map[];
      distroConfig := map[];
      notifications := [];
      sent := [];
    }

    /** Registers a consumer after those already registered. */
    method Listen(listener: Listener)
      modifies this`listeners
      ensures listeners == old(listeners) + [listener]
    {
      listeners := listeners + [listener];
    }

    /** Hands the executor one batch for every registered listener. */
    method NotifyListeners()
      modifies this`notifications
      ensures notifications == old(notifications) + [Notification(listeners, servers, healthyServers)]
    {
      notifications := notifications + [Notification(listeners, servers, healthyServers)];
    }

    // -------------------------------------------------------------------
    // Refresh task
    // -------------------------------------------------------------------

    /** One run of the refresh task on the configuration read `conf` (None: the read
        failed). A malformed entry aborts the run with nothing changed; otherwise the
        full list is reconciled and the listeners are notified on a change. */
    method UpdateServerList(conf: Option<seq<string>>) returns (ok: bool)
      modifies this`servers, this`notifications
      ensures ok == ParseServerList(ConfiguredEntries(conf)).Ok?
      ensures !ok ==> servers == old(servers) && notifications == old(notifications)
      ensures ok ==> servers == Reconcile.Reconcile(old(servers), ParseServerList(ConfiguredEntries(conf)).value).servers
      ensures ok ==> (notifications == old(notifications)
        + (if Reconcile.Reconcile(old(servers), ParseServerList(ConfiguredEntries(conf)).value).changed
           then [Notification(listeners, servers, healthyServers)] else []))
    {
      var refreshed := RefreshServerList(conf);
      if refreshed.Err? {
        return false;
      }
      var refreshedServers := refreshed.value;
      var changed := false;
      var newServers := Subtract(refreshedServers, servers);
      if newServers != [] {
        servers := servers + newServers;
        changed := true;
      }
      // oldServers and servers are one list object: the dead ones come from the grown list
      var deadServers := Subtract(servers, refreshedServers);
      if deadServers != [] {
        servers := RemoveAll(servers, deadServers);
        changed := true;
      }
      if changed {
        NotifyListeners();
      }
      ok := true;
    }

    // -------------------------------------------------------------------
    // Ingestion
    // -------------------------------------------------------------------

    /** Ingestion as written: the sender's beat time becomes `now`, and the site's list is
        seeded and merged but then overwritten with the EMPTY list. A refused or empty
        payload changes nothing. */
    method OnReceiveServerStatus(serverStatus: string, now: int) returns (r: Ingest)
      modifies this`distroBeats, this`distroConfig
      ensures r == Receive(serverStatus, old(distroBeats), now)
      ensures r.Accepted? ==> distroBeats == old(distroBeats)[Key(r.server) := now]
      ensures r.Accepted? ==> distroConfig == old(distroConfig)[r.server.site := []]
      ensures !r.Accepted? ==> distroBeats == old(distroBeats) && distroConfig == old(distroConfig)
    {
      r := Receive(serverStatus, distroBeats, now);
      if !r.Accepted? {
        return;
      }
      var server := r.server;
      var tempServerList: seq<Server> := [];
      distroBeats := distroBeats[Key(server) := now];
      var list := if server.site in distroConfig then distroConfig[server.site] else [];
      if |list| == 0 {
        list := [server];
        distroConfig := distroConfig[server.site := list];
      }
      var tmpServerList := RebuildSiteList(list, server);
      distroConfig := distroConfig[server.site := tempServerList];
    }

    /** Corrected ingestion: as above, but the site's list is committed as the upsert of
        the sender's record into the stored (or seeded) list. */
    method OnReceiveServerStatusCorrected(serverStatus: string, now: int) returns (r: Ingest)
      modifies this`distroBeats, this`distroConfig
      ensures r == Receive(serverStatus, old(distroBeats), now)
      ensures r.Accepted? ==> distroBeats == old(distroBeats)[Key(r.server) := now]
      ensures r.Accepted? ==> distroConfig == old(distroConfig)[r.server.site :=
        UpsertSiteList(SeedSiteList(old(distroConfig), r.server), r.server)]
      ensures !r.Accepted? ==> distroBeats == old(distroBeats) && distroConfig == old(distroConfig)
    {
      r := Receive(serverStatus, distroBeats, now);
      if !r.Accepted? {
        return;
      }
      var server := r.server;
      distroBeats := distroBeats[Key(server) := now];
      var list := SeedSiteList(distroConfig, server);
      var tmpServerList;
      if KeyIn(Key(server), list) {
        tmpServerList := RebuildSiteList(list, server);
      } else {
        tmpServerList := list + [server];
      }
      distroConfig := distroConfig[server.site := tmpServerList];
    }

    // -------------------------------------------------------------------
    // Liveness check
    // -------------------------------------------------------------------

    /** The check as written. Without a local-site entry the code dereferences null: the
        pass fails (`ok` false) with nothing changed. Otherwise every local-site record
        with a beat is re-evaluated in place, and only when some member changed state is
        the healthy list replaced (by the newly alive members) and a batch queued. */
    method CheckHeartBeat(now: int) returns (ok: bool)
      modifies this`healthyServers, this`distroConfig, this`notifications
      ensures ok == (LOCALHOST_SITE in old(distroConfig))
      ensures !ok ==> (healthyServers == old(healthyServers) && distroConfig == old(distroConfig)
                       && notifications == old(notifications))
      ensures ok ==> (distroConfig
        == old(distroConfig)[LOCALHOST_SITE := Evaluate(old(distroConfig)[LOCALHOST_SITE], distroBeats, now)])
      ensures ok ==> (healthyServers
        == HealthyAfterCheck(old(distroConfig)[LOCALHOST_SITE], distroBeats, old(healthyServers), now))
      ensures ok ==> (notifications == old(notifications)
        + (if AnyTransition(Evaluate(old(distroConfig)[LOCALHOST_SITE], distroBeats, now), distroBeats, old(healthyServers))
           then [Notification(listeners, servers, healthyServers)] else []))
    {
      if LOCALHOST_SITE !in distroConfig {
        return false;
      }
      var allServers := distroConfig[LOCALHOST_SITE];
      var evaluated, newHealthyList, changed := CheckPass(allServers, distroBeats, healthyServers, now);
      distroConfig := distroConfig[LOCALHOST_SITE := evaluated];
      if changed {
        healthyServers := newHealthyList;
        NotifyListeners();
      }
      ok := true;
    }

    /** Corrected check: a missing local-site entry is an empty list (a no-op pass), and on
        a change the healthy list becomes every member found alive. */
    method CheckHeartBeatCorrected(now: int)
      modifies this`healthyServers, this`distroConfig, this`notifications
      ensures distroConfig == if LOCALHOST_SITE in old(distroConfig)
        then old(distroConfig)[LOCALHOST_SITE := Evaluate(old(distroConfig)[LOCALHOST_SITE], distroBeats, now)]
        else old(distroConfig)
      ensures healthyServers == HealthyAfterCheckCorrected(LocalSiteList(old(distroConfig)), distroBeats, old(healthyServers), now)
      ensures notifications == old(notifications)
        + (if AnyTransition(Evaluate(LocalSiteList(old(distroConfig)), distroBeats, now), distroBeats, old(healthyServers))
           then [Notification(listeners, servers, healthyServers)] else [])
    {
      var allServers := LocalSiteList(distroConfig);
      var evaluated, aliveList, changed := CheckPassCorrected(allServers, distroBeats, healthyServers, now);
      if LOCALHOST_SITE in distroConfig {
        distroConfig := distroConfig[LOCALHOST_SITE := evaluated];
      }
      if changed {
        healthyServers := aliveList;
        NotifyListeners();
      }
    }

    // -------------------------------------------------------------------
    // Report task
    // -------------------------------------------------------------------

    /** Hands the transport one heartbeat per listed member other than the node itself. */
    method SendToPeers(serverAddr: string, status: string)
      modifies this`sent
      ensures sent == old(sent) + PeerSends(servers, serverAddr, status)
    {
      for i := 0 to |servers|
        invariant sent == old(sent) + PeerSends(servers[..i], serverAddr, status)
      {
        assert servers[..i + 1][..i] == servers[..i];
        var server := servers[i];
        if Key(server) == serverAddr {
          continue;
        }
        sent := sent + [Send(Key(server), status)];
      }
      assert servers[..|servers|] == servers;
    }

    /** The rest of a report cycle once the check has passed, as written: the node ingests
        its own payload and, if that is accepted, sends it to every other member. */
    method ReportSelf(serverIp: string, serverPort: int, now: int) returns (ok: bool)
      modifies this`distroBeats, this`distroConfig, this`sent
      ensures ok == Receive(SelfPayload(serverIp, serverPort, now), old(distroBeats), now).Accepted?
      ensures WellFormed(LOCALHOST_SITE, serverIp, serverPort, now) ==> ok
      ensures ok ==> distroBeats == old(distroBeats)[Key(Receive(SelfPayload(serverIp, serverPort, now), old(distroBeats), now).server) := now]
      ensures ok ==> distroConfig == old(distroConfig)[Receive(SelfPayload(serverIp, serverPort, now), old(distroBeats), now).server.site := []]
      ensures ok ==> sent == old(sent) + PeerSends(servers, Address(serverIp, serverPort), SelfPayload(serverIp, serverPort, now))
      ensures !ok ==> distroBeats == old(distroBeats) && distroConfig == old(distroConfig) && sent == old(sent)
    {
      var serverAddr := Address(serverIp, serverPort);
      var status := BuildPayload(LOCALHOST_SITE, serverAddr, now);
      if WellFormed(LOCALHOST_SITE, serverIp, serverPort, now) {
        ReceiveSelfPayload(serverIp, serverPort, now, distroBeats);
      }
      var received := OnReceiveServerStatus(status, now);
      if !received.Accepted? {
        return false;
      }
      SendToPeers(serverAddr, status);
      ok := true;
    }

    /** The same with corrected ingestion. */
    method ReportSelfCorrected(serverIp: string, serverPort: int, now: int) returns (ok: bool)
      modifies this`distroBeats, this`distroConfig, this`sent
      ensures ok == Receive(SelfPayload(serverIp, serverPort, now), old(distroBeats), now).Accepted?
      ensures WellFormed(LOCALHOST_SITE, serverIp, serverPort, now) ==> ok
      ensures ok ==> distroBeats == old(distroBeats)[Key(Receive(SelfPayload(serverIp, serverPort, now), old(distroBeats), now).server) := now]
      ensures ok ==>
        var server := Receive(SelfPayload(serverIp, serverPort, now), old(distroBeats), now).server;
        distroConfig == old(distroConfig)[server.site := UpsertSiteList(SeedSiteList(old(distroConfig), server), server)]
      ensures ok ==> sent == old(sent) + PeerSends(servers, Address(serverIp, serverPort), SelfPayload(serverIp, serverPort, now))
      ensures !ok ==> distroBeats == old(distroBeats) && distroConfig == old(distroConfig) && sent == old(sent)
    {
      var serverAddr := Address(serverIp, serverPort);
      var status := BuildPayload(LOCALHOST_SITE, serverAddr, now);
      if WellFormed(LOCALHOST_SITE, serverIp, serverPort, now) {
        ReceiveSelfPayload(serverIp, serverPort, now, distroBeats);
      }
      var received := OnReceiveServerStatusCorrected(status, now);
      if !received.Accepted? {
        return false;
      }
      SendToPeers(serverAddr, status);
      ok := true;
    }

    /** One report cycle as written: the check runs first, on the tables as they were; a
        failed check (no local-site entry) ends the cycle with nothing changed, and
        otherwise the node reports itself. */
    method ReportServerStatus(serverIp: string, serverPort: int, now: int) returns (ok: bool)
      modifies this`healthyServers, this`distroConfig, this`notifications, this`distroBeats, this`sent
      ensures LOCALHOST_SITE !in old(distroConfig) ==>
        !ok && healthyServers == old(healthyServers) && distroConfig == old(distroConfig)
        && notifications == old(notifications) && distroBeats == old(distroBeats) && sent == old(sent)
      ensures LOCALHOST_SITE in old(distroConfig) ==>
        healthyServers == HealthyAfterCheck(old(distroConfig)[LOCALHOST_SITE], old(distroBeats), old(healthyServers), now)
        && notifications == old(notifications)
           + (if AnyTransition(Evaluate(old(distroConfig)[LOCALHOST_SITE], old(distroBeats), now), old(distroBeats), old(healthyServers))
              then [Notification(listeners, servers, healthyServers)] else [])
      ensures ok <==> LOCALHOST_SITE in old(distroConfig)
                      && Receive(SelfPayload(serverIp, serverPort, now), old(distroBeats), now).Accepted?
      ensures WellFormed(LOCALHOST_SITE, serverIp, serverPort, now) ==> (ok <==> LOCALHOST_SITE in old(distroConfig))
      ensures ok ==> distroBeats == old(distroBeats)[Key(Receive(SelfPayload(serverIp, serverPort, now), old(distroBeats), now).server) := now]
      ensures ok ==> distroConfig == old(distroConfig)
        [LOCALHOST_SITE := Evaluate(old(distroConfig)[LOCALHOST_SITE], old(distroBeats), now)]
        [Receive(SelfPayload(serverIp, serverPort, now), old(distroBeats), now).server.site := []]
      ensures ok ==> sent == old(sent) + PeerSends(servers, Address(serverIp, serverPort), SelfPayload(serverIp, serverPort, now))
      ensures !ok ==> sent == old(sent)
      ensures (LOCALHOST_SITE in old(distroConfig) && !ok ==>
        distroBeats == old(distroBeats)
        && distroConfig == old(distroConfig)[LOCALHOST_SITE := Evaluate(old(distroConfig)[LOCALHOST_SITE], old(distroBeats), now)])
    {
      ok := CheckHeartBeat(now);
      if !ok {
        return;
      }
      ok := ReportSelf(serverIp, serverPort, now);
    }

    /** Corrected report cycle: the corrected check, which cannot fail, then the node
        reports itself through corrected ingestion. */
    method ReportServerStatusCorrected(serverIp: string, serverPort: int, now: int) returns (ok: bool)
      modifies this`healthyServers, this`distroConfig, this`notifications, this`distroBeats, this`sent
      ensures healthyServers == HealthyAfterCheckCorrected(LocalSiteList(old(distroConfig)), old(distroBeats), old(healthyServers), now)
      ensures notifications == old(notifications)
        + (if AnyTransition(Evaluate(LocalSiteList(old(distroConfig)), old(distroBeats), now), old(distroBeats), old(healthyServers))
           then [Notification(listeners, servers, healthyServers)] else [])
      ensures ok == Receive(SelfPayload(serverIp, serverPort, now), old(distroBeats), now).Accepted?
      ensures WellFormed(LOCALHOST_SITE, serverIp, serverPort, now) ==> ok
      ensures ok ==> distroBeats == old(distroBeats)[Key(Receive(SelfPayload(serverIp, serverPort, now), old(distroBeats), now).server) := now]
      ensures ok ==>
        var afterCheck := if LOCALHOST_SITE in old(distroConfig)
          then old(distroConfig)[LOCALHOST_SITE := Evaluate(old(distroConfig)[LOCALHOST_SITE], old(distroBeats), now)]
          else old(distroConfig);
        var server := Receive(SelfPayload(serverIp, serverPort, now), old(distroBeats), now).server;
        distroConfig == afterCheck[server.site := UpsertSiteList(SeedSiteList(afterCheck, server), server)]
      ensures ok ==> sent == old(sent) + PeerSends(servers, Address(serverIp, serverPort), SelfPayload(serverIp, serverPort, now))
      ensures !ok ==> sent == old(sent)
      ensures (!ok ==>
        distroBeats == old(distroBeats)
        && distroConfig == if LOCALHOST_SITE in old(distroConfig)
          then old(distroConfig)[LOCALHOST_SITE := Evaluate(old(distroConfig)[LOCALHOST_SITE], old(distroBeats), now)]
          else old(distroConfig))
    {
      CheckHeartBeatCorrected(now);
      ok := ReportSelfCorrected(serverIp, serverPort, now);
    }
  }
}
