/**
 Short runs of a single node's membership store, from a fresh store, showing what the
 code as written does with its own heartbeats and what the corrected methods do. The
 node's ip and port are any a well-formed heartbeat can carry.
 */
module Scenarios {
  import opened Servers
  import opened Heartbeat
  import opened Liveness
  import opened SiteTable
  import opened Cluster

  /** An ip and port the node can report, at the times these runs use. */
  predicate Reportable(serverIp: string, serverPort: int)
  {
    WellFormed(LOCALHOST_SITE, serverIp, serverPort, 0)
  }

  /** A check over one listed record, beaten less than the window before, finds it alive,
      sees a transition from the empty healthy list, and (corrected) makes it healthy. */
  lemma SecondCycleHealthy(self: Server, beat: int, now: int)
    requires 0 <= now - beat < SERVER_EXPIRED_MILLS
    ensures var beats := map[Key(self) := beat];
      && Evaluate([self], beats, now) == [self.(alive := true)]
      && AnyTransition([self.(alive := true)], beats, [])
      && HealthyAfterCheckCorrected([self], beats, [], now) == [self.(alive := true)]
  {
    var beats := map[Key(self) := beat];
    var e := [self.(alive := true)];
    assert [self][..0] == [];
    assert Evaluate([self], beats, now) == e;
    assert e[..0] == [];
    assert Transition(e[0], beats, []);
    assert AliveServers(e, beats) == e;
  }

  /** As written, a fresh node's report cycles all fail in the check, whatever its ip and
      port: its local site has no entry, nothing is ever ingested and no heartbeat is ever
      sent. */
  method FreshNodeNeverReports(serverIp: string, serverPort: int) returns (m: ServerListManager)
    ensures m.distroBeats == map[] && m.distroConfig == map[]
    ensures m.sent == [] && m.healthyServers == [] && m.notifications == []
  {
    m := new ServerListManager();
    var ok := m.ReportServerStatus(serverIp, serverPort, 1000);
    assert !ok;
    ok := m.ReportServerStatus(serverIp, serverPort, 4000);
    assert !ok;
  }

  /** As written, ingesting a heartbeat records its time but leaves the sender's site with
      an empty list, so the next check finds nobody to make healthy. */
  method IngestionForgetsSender(serverIp: string, serverPort: int) returns (m: ServerListManager)
    requires Reportable(serverIp, serverPort)
    ensures m.distroBeats == map[Address(serverIp, serverPort) := 1000]
    ensures m.distroConfig == map[LOCALHOST_SITE := []]
    ensures m.healthyServers == [] && m.notifications == []
  {
    m := new ServerListManager();
    ReceiveSelfPayload(serverIp, serverPort, 1000, map[]);
    var r := m.OnReceiveServerStatus(SelfPayload(serverIp, serverPort, 1000), 1000);
    var ok := m.CheckHeartBeat(2000);
    assert ok;
  }

  /** With the corrected methods, a fresh node's first cycle lists the node in its own
      site, with the beat time recorded, and nothing healthy yet. */
  method CorrectedFirstCycle(serverIp: string, serverPort: int) returns (m: ServerListManager)
    requires Reportable(serverIp, serverPort)
    ensures m.distroConfig == map[LOCALHOST_SITE := [Server(LOCALHOST_SITE, serverIp, serverPort, false, 1000)]]
    ensures m.distroBeats == map[Address(serverIp, serverPort) := 1000]
    ensures fresh(m) && m.healthyServers == [] && m.notifications == [] && m.servers == [] && m.sent == []
  {
    m := new ServerListManager();
    var self := Server(LOCALHOST_SITE, serverIp, serverPort, false, 1000);
    ReceiveSelfPayload(serverIp, serverPort, 1000, map[]);
    var ok := m.ReportServerStatusCorrected(serverIp, serverPort, 1000);
    assert Key([self][0]) == Key(self);
    SeedSiteListHoldsSender(map[], self);
    assert UpsertSiteList(SeedSiteList(map[], self), self) == [self];
  }

  /** ... and after its second cycle, three seconds later, the node is healthy and the
      listeners have been told once. */
  method CorrectedNodeBecomesHealthy(serverIp: string, serverPort: int) returns (m: ServerListManager)
    requires Reportable(serverIp, serverPort)
    ensures KeyIn(Address(serverIp, serverPort), m.healthyServers)
    ensures m.distroBeats == map[Address(serverIp, serverPort) := 4000]
    ensures |m.notifications| == 1
  {
    m := CorrectedFirstCycle(serverIp, serverPort);
    var self := Server(LOCALHOST_SITE, serverIp, serverPort, false, 1000);
    ghost var beats := map[Key(self) := 1000];
    ReceiveSelfPayload(serverIp, serverPort, 4000, beats);
    SecondCycleHealthy(self, 1000, 4000);
    var ok := m.ReportServerStatusCorrected(serverIp, serverPort, 4000);
    assert m.healthyServers == [self.(alive := true)];
    assert Key(m.healthyServers[0]) == Address(serverIp, serverPort);
  }
}
