# Cluster membership store of a naming node, in Dafny

This project models `ServerListManager`, the membership and heartbeat bookkeeping of one
node of a naming-service cluster. Each node reads its peers' addresses from a configuration
source and keeps them as the full member list. Every few seconds it checks which members
have sent a heartbeat within the expiry window (15000 ms). It then sends its own heartbeat,
`cluster_status#ip:port#millis#`, first to itself and then to every other member. It ingests
heartbeats into a timestamp table and a per-site record table. It notifies its registered
listeners whenever the full or healthy list changes.

The model has these parts:

- `servers.dfy` (module `Servers`) defines the member record and its identity key,
  `ip + ":" + port`. Wherever the code compares records with `equals` or `contains`, the
  model compares their keys (`Key`, `KeyIn`, `KeySet`); Dafny's own `==` and `in` on records
  remain structural. It also defines the
  Java text primitives the class relies on: `String.split` on one character,
  `Integer.parseInt` / `Long.parseLong`, and the decimal printing of a number.
- `heartbeat.dfy` (module `Heartbeat`) builds and parses the heartbeat payload.
- `site_table.dfy` (module `SiteTable`) holds the per-site merge that ingestion performs,
  and the upsert it evidently means.
- `liveness.dfy` (module `Liveness`) holds the liveness check. Functions and lemmas state
  what one pass computes. The two loops are methods proved against those functions.
- `reconcile.dfy` (module `Reconcile`) parses the configured `ip:port` list. It also
  models the updater's two `CollectionUtils.subtract` calls, the `addAll` and the
  `removeAll`, including the fact that `oldServers` and `servers` are the same list
  object.
- `cluster.dfy` (module `Cluster`) holds the class `ServerListManager`. Its fields are
  `servers`, `listeners`, `healthyServers`, `distroBeats` (address key to local receive
  time) and `distroConfig` (site tag to record list). Its methods update those fields in
  place. Heartbeats handed to the transport and notification batches handed to the executor
  are appended to the ghost logs `sent` and `notifications`.
- `scenarios.dfy` (module `Scenarios`) runs a fresh node through the methods, both as
  written and corrected.

Inputs that the code reads from its environment are parameters here:

- the current time, `now`;
- the node's own ip and port;
- the configuration read: `Some(entries)`, or `None` when the read fails.

Where the code does something other than what it evidently intends, the model keeps the
code's behaviour under the original name and adds a corrected member beside it (see
"## Findings"). The corrected members are:

- the methods `OnReceiveServerStatusCorrected`, `CheckHeartBeatCorrected`,
  `ReportSelfCorrected` and `ReportServerStatusCorrected` of the class;
- the loop `Liveness.CheckPassCorrected`;
- the functions `SiteTable.UpsertSiteList` (the merge that inserts an absent sender),
  `Liveness.AliveServers` and `Liveness.HealthyAfterCheckCorrected` (the healthy list
  holding every member alive now).

In each of the following the code departs from its evident intent, and the model follows
the code:

- Ingestion commits the empty list `tempServerList` as the site's records (line 266), not
  the list it has just merged.
- The merge (lines 251-264) only replaces records. A sender that is not yet listed in a
  non-empty site list is never added.
- After a transition, the healthy list is replaced with the members that have just become
  alive (lines 195-205). Members that were healthy and are still alive drop out.
- With no local-site entry in the per-site table, the check dereferences null (lines
  183-184), and the report cycle ends before the node reports itself.
- A failed configuration read yields the empty list (lines 73-79), and the next updater run
  removes every member instead of keeping the previous list.
- The healthy list is not kept inside the full member list: it is built from the per-site
  table, which is never filtered by `servers`.
- A node whose own ip contains ':' (an IPv6 address) re-splits at that ':' when its
  payload is ingested. For `fe80::1` the port field is empty, so the node refuses its own
  payload and sends nothing in that cycle.

## Model

| member | source | states |
|---|---|---|
| Servers.IntToString | naming/src/main/java/cn/lzj/nacos/naming/cluster/ServerListManager.java:142 | the printed port or timestamp is non-empty and contains neither ':' nor '#', so it cannot split a field |
| Servers.ParseInteger | naming/src/main/java/cn/lzj/nacos/naming/cluster/ServerListManager.java:230-231 | a parsed int or long is within the type's range |
| Servers.DecimalRoundTrip | naming/src/main/java/cn/lzj/nacos/naming/cluster/ServerListManager.java:142-144 | reading the printed digits of a natural number gives the number back |
| Servers.ParseIntegerRoundTrip | naming/src/main/java/cn/lzj/nacos/naming/cluster/ServerListManager.java:230-231 | parseInt/parseLong of a printed in-range number gives that number |
| Servers.PiecesNoSeparator | naming/src/main/java/cn/lzj/nacos/naming/cluster/ServerListManager.java:226 | text without the delimiter splits into itself alone |
| Servers.PiecesConcat | naming/src/main/java/cn/lzj/nacos/naming/cluster/ServerListManager.java:226 | splitting `x + c + y` (no `c` in `x`) gives `x` followed by the pieces of `y` |
| Servers.AddressRoundTrip | naming/src/main/java/cn/lzj/nacos/naming/cluster/ServerListManager.java:84-85 | an `ip:port` key, built from an ip without ':' and an int port, splits and parses back to that ip and port |
| Servers.AddressWithoutSeparator | naming/src/main/java/cn/lzj/nacos/naming/cluster/ServerListManager.java:84-85 | an entry without ':' has no second piece and is refused (the index out of bounds) |
| Servers.KeyInKeySet | naming/src/main/java/cn/lzj/nacos/naming/cluster/ServerListManager.java:195-199 | `contains` under key equality is membership of the key set |
| Heartbeat.PayloadRoundTrip | naming/src/main/java/cn/lzj/nacos/naming/cluster/ServerListManager.java:226-231 | parsing the payload the reporter builds at line 144 gives back its site, ip, port and send time |
| Heartbeat.MissingTimestampRejected | naming/src/main/java/cn/lzj/nacos/naming/cluster/ServerListManager.java:226-231 | a payload `site#addr` with no timestamp field is refused, whatever the address |
| Heartbeat.TruncatedPayloadRejected | naming/src/main/java/cn/lzj/nacos/naming/cluster/ServerListManager.java:226-231 | the payload `cluster_status#bad` is refused |
| SiteTable.MergeSiteListSpec | naming/src/main/java/cn/lzj/nacos/naming/cluster/ServerListManager.java:251-264 | the merge keeps length and order; positions with the sender's key hold the sender's new record and every other record is kept |
| SiteTable.MergeSiteListKeys | naming/src/main/java/cn/lzj/nacos/naming/cluster/ServerListManager.java:251-264 | the merge keeps the key at every position, hence the key set and key uniqueness |
| SiteTable.MergeSiteListOmitsNewSender | naming/src/main/java/cn/lzj/nacos/naming/cluster/ServerListManager.java:251-264 | a sender whose key is not in the stored list is not added: the merge returns the list unchanged |
| SiteTable.MergeSiteListIdempotent | naming/src/main/java/cn/lzj/nacos/naming/cluster/ServerListManager.java:251-264 | merging the same record twice equals merging it once |
| SiteTable.SeedSiteListHoldsSender | naming/src/main/java/cn/lzj/nacos/naming/cluster/ServerListManager.java:244-249 | a missing or empty site list is seeded with the sender alone, and the merge keeps it so |
| SiteTable.UpsertSiteListSpec | naming/src/main/java/cn/lzj/nacos/naming/cluster/ServerListManager.java:244-266 | corrected commit: the sender's key is listed, every record with that key is the sender's, other records keep their places; an absent sender is appended at the end, and a present one keeps the length |
| SiteTable.UpsertSiteListKeys | naming/src/main/java/cn/lzj/nacos/naming/cluster/ServerListManager.java:244-266 | corrected commit: the key set gains exactly the sender's key and keys stay unique |
| SiteTable.RebuildSiteList | naming/src/main/java/cn/lzj/nacos/naming/cluster/ServerListManager.java:251-264 | the merge loop builds exactly the merged list |
| Liveness.CheckStep | naming/src/main/java/cn/lzj/nacos/naming/cluster/ServerListManager.java:189-203 | one record more extends the evaluated list, the changed flag and both rebuilt lists by that record's share |
| Liveness.Evaluate | naming/src/main/java/cn/lzj/nacos/naming/cluster/ServerListManager.java:189-194 | the evaluated list has one record per listed record |
| Liveness.EvaluateAt | naming/src/main/java/cn/lzj/nacos/naming/cluster/ServerListManager.java:189-194 | position `i` of the evaluated list is record `i` re-evaluated |
| Liveness.EvaluateSpec | naming/src/main/java/cn/lzj/nacos/naming/cluster/ServerListManager.java:189-194 | a record with no beat is unchanged; any other record has `alive == (now - lastBeat < 15000)` and is otherwise unchanged; keys stay in place |
| Liveness.AnyTransitionSpec | naming/src/main/java/cn/lzj/nacos/naming/cluster/ServerListManager.java:195-203 | `changed` is set exactly when some record with a beat became alive while not healthy, or is dead while healthy |
| Liveness.NewHealthyListSpec | naming/src/main/java/cn/lzj/nacos/naming/cluster/ServerListManager.java:195-199 | the rebuilt list holds exactly the records with a beat that are alive and not in the old healthy list |
| Liveness.AliveServersSpec | naming/src/main/java/cn/lzj/nacos/naming/cluster/ServerListManager.java:195-207 | corrected list: exactly the records with a beat that are alive |
| Liveness.HealthyAfterCheckSpec | naming/src/main/java/cn/lzj/nacos/naming/cluster/ServerListManager.java:195-207 | with no transition the healthy list is kept; with one, every new member was evaluated alive from its beat and was not healthy before |
| Liveness.StillAliveMemberDropped | naming/src/main/java/cn/lzj/nacos/naming/cluster/ServerListManager.java:195-207 | as written, a replacement drops a member that is still alive and was healthy |
| Liveness.CorrectedHealthyMatchesLiveness | naming/src/main/java/cn/lzj/nacos/naming/cluster/ServerListManager.java:195-207 | after a corrected pass, a listed member with a beat is healthy exactly when it is alive |
| Liveness.CheckPass | naming/src/main/java/cn/lzj/nacos/naming/cluster/ServerListManager.java:183-203 | the check's loop computes the evaluated list, the newly-alive list and the changed flag |
| Liveness.CheckPassCorrected | naming/src/main/java/cn/lzj/nacos/naming/cluster/ServerListManager.java:183-203 | the corrected loop computes the evaluated list, the list of all alive members and the changed flag |
| Reconcile.RefreshServerList | naming/src/main/java/cn/lzj/nacos/naming/cluster/ServerListManager.java:70-93 | the refresh loop gives the parse of the configured entries; a failed read gives the empty list, and a malformed entry gives its error |
| Reconcile.ParseServerListKeepsError | naming/src/main/java/cn/lzj/nacos/naming/cluster/ServerListManager.java:80-91 | the first malformed entry aborts the whole refresh with its error |
| Reconcile.ParseServerListSpec | naming/src/main/java/cn/lzj/nacos/naming/cluster/ServerListManager.java:79-93 | the refresh succeeds exactly when every entry parses, and then yields one member per entry, in order, with that entry's ip and port |
| Reconcile.CanonicalEntriesKeys | naming/src/main/java/cn/lzj/nacos/naming/cluster/ServerListManager.java:84-90 | entries written `ip:port` yield members whose keys are the entries |
| Reconcile.KeyBagKeys | naming/src/main/java/cn/lzj/nacos/naming/cluster/ServerListManager.java:107 | the bag subtract uses holds exactly the keys of the subtracted list |
| Reconcile.WithoutMembers | naming/src/main/java/cn/lzj/nacos/naming/cluster/ServerListManager.java:118 | `removeAll` keeps exactly the members whose key is not removed |
| Reconcile.WithoutKeys | naming/src/main/java/cn/lzj/nacos/naming/cluster/ServerListManager.java:118 | after `removeAll` the key set is the old one minus the removed keys |
| Reconcile.WithoutUnique | naming/src/main/java/cn/lzj/nacos/naming/cluster/ServerListManager.java:118 | `removeAll` keeps keys unique |
| Reconcile.WithoutConcat | naming/src/main/java/cn/lzj/nacos/naming/cluster/ServerListManager.java:118 | `removeAll` on two joined lists is the join of each removal |
| Reconcile.WithoutDisjoint | naming/src/main/java/cn/lzj/nacos/naming/cluster/ServerListManager.java:118 | `removeAll` of keys that are not present changes nothing |
| Reconcile.SubtractBagUnique | naming/src/main/java/cn/lzj/nacos/naming/cluster/ServerListManager.java:107-115 | on a list without repeated keys, the bag subtraction removes exactly the members whose key is in the bag |
| Reconcile.SubtractUnique | naming/src/main/java/cn/lzj/nacos/naming/cluster/ServerListManager.java:107-115 | on a list without repeated keys, `subtract(a, b)` is `a` without the keys of `b` |
| Reconcile.SubtractEmptyBag | naming/src/main/java/cn/lzj/nacos/naming/cluster/ServerListManager.java:107-115 | subtracting nothing keeps the list |
| Reconcile.WithoutOwnKeys | naming/src/main/java/cn/lzj/nacos/naming/cluster/ServerListManager.java:115-118 | removing a list's own keys leaves nothing |
| Reconcile.KeySetConcat | naming/src/main/java/cn/lzj/nacos/naming/cluster/ServerListManager.java:110 | `addAll` joins the key sets |
| Reconcile.KeysUniqueConcat | naming/src/main/java/cn/lzj/nacos/naming/cluster/ServerListManager.java:110 | `addAll` of new keys keeps keys unique |
| Reconcile.ReconcileShape | naming/src/main/java/cn/lzj/nacos/naming/cluster/ServerListManager.java:102-125 | for duplicate-free lists, a run appends the new members; it then removes the members not configured any more, from the grown (aliased) list; changed exactly when either step did something |
| Reconcile.ReconcileSpec | naming/src/main/java/cn/lzj/nacos/naming/cluster/ServerListManager.java:102-125 | for duplicate-free lists, a run leaves exactly the refreshed keys, without duplicates, and reports a change exactly when the key sets differ |
| Reconcile.ReconcileOrder | naming/src/main/java/cn/lzj/nacos/naming/cluster/ServerListManager.java:102-125 | for duplicate-free lists, the held members still configured keep their order, followed by the newcomers in configured order |
| Reconcile.ReconcileWithNothingConfigured | naming/src/main/java/cn/lzj/nacos/naming/cluster/ServerListManager.java:73-79 | a failed read (empty configured list) removes every member, and reports a change whenever there were members |
| Cluster.ReceiveSelfPayload | naming/src/main/java/cn/lzj/nacos/naming/cluster/ServerListManager.java:226-239 | the node's own payload is accepted as a local-site record with its ip, port and send time, keyed by its address, with `alive` set only when a previous beat is on record |
| Cluster.ReceiveTruncatedPayload | naming/src/main/java/cn/lzj/nacos/naming/cluster/ServerListManager.java:226-231 | a payload missing its timestamp is refused before any table is touched |
| Cluster.PeerSendsSpec | naming/src/main/java/cn/lzj/nacos/naming/cluster/ServerListManager.java:152-165 | a report sends one heartbeat per listed member whose key is not the node's address, in list order, all with the same payload |
| Cluster.ServerListManager.constructor | naming/src/main/java/cn/lzj/nacos/naming/cluster/ServerListManager.java:30-43 | a new store starts with every list and table empty |
| Cluster.ServerListManager.Listen | naming/src/main/java/cn/lzj/nacos/naming/cluster/ServerListManager.java:61-63 | the listener is registered after those already registered |
| Cluster.ServerListManager.NotifyListeners | naming/src/main/java/cn/lzj/nacos/naming/cluster/ServerListManager.java:269-280 | one batch is queued, carrying the listeners, the full list and the healthy list |
| Cluster.ServerListManager.UpdateServerList | naming/src/main/java/cn/lzj/nacos/naming/cluster/ServerListManager.java:100-130 | a malformed entry changes nothing; otherwise the full list becomes the reconciled list, and one batch is queued exactly when it changed |
| Cluster.ServerListManager.OnReceiveServerStatus | naming/src/main/java/cn/lzj/nacos/naming/cluster/ServerListManager.java:216-267 | as written: an empty or refused payload changes nothing; an accepted one sets the sender's beat time to `now` (no other key changes) and leaves its site's list EMPTY |
| Cluster.ServerListManager.OnReceiveServerStatusCorrected | naming/src/main/java/cn/lzj/nacos/naming/cluster/ServerListManager.java:216-267 | corrected: as above, but the site's list becomes the upsert of the sender into the stored (or seeded) list |
| Cluster.ServerListManager.CheckHeartBeat | naming/src/main/java/cn/lzj/nacos/naming/cluster/ServerListManager.java:179-210 | as written: with no local-site entry the pass fails with nothing changed; otherwise the local list is re-evaluated, and on a transition the healthy list is rebuilt and one batch queued |
| Cluster.ServerListManager.CheckHeartBeatCorrected | naming/src/main/java/cn/lzj/nacos/naming/cluster/ServerListManager.java:179-210 | corrected: a missing local-site entry is an empty no-op pass, and on a transition the healthy list becomes every member alive now |
| Cluster.ServerListManager.SendToPeers | naming/src/main/java/cn/lzj/nacos/naming/cluster/ServerListManager.java:152-165 | the send loop logs exactly the peer sends of the full list |
| Cluster.ServerListManager.ReportSelf | naming/src/main/java/cn/lzj/nacos/naming/cluster/ServerListManager.java:142-165 | self-ingestion as written and then the sends; the payload is always accepted when ip and port are well formed |
| Cluster.ServerListManager.ReportSelfCorrected | naming/src/main/java/cn/lzj/nacos/naming/cluster/ServerListManager.java:142-165 | the same with corrected ingestion |
| Cluster.ServerListManager.ReportServerStatus | naming/src/main/java/cn/lzj/nacos/naming/cluster/ServerListManager.java:138-166 | the check runs first on the old tables; a missing local-site entry ends the cycle with nothing else changed; otherwise the node ingests its own payload and sends it once to every other member; if the payload is refused, the beat table is unchanged and the per-site table holds only the check's re-evaluation, and nothing is sent |
| Cluster.ServerListManager.ReportServerStatusCorrected | naming/src/main/java/cn/lzj/nacos/naming/cluster/ServerListManager.java:138-166 | the corrected check, then corrected self-ingestion, then the same sends; a refused payload leaves the beat table unchanged and the per-site table as the check left it |
| Scenarios.SecondCycleHealthy | naming/src/main/java/cn/lzj/nacos/naming/cluster/ServerListManager.java:189-207 | a single listed member beaten within the window is evaluated alive, makes a transition from an empty healthy list, and is made healthy by the corrected pass |
| Scenarios.FreshNodeNeverReports | naming/src/main/java/cn/lzj/nacos/naming/cluster/ServerListManager.java:138-150 | as written, a fresh node's cycles all fail in the check, for every ip and port: nothing is ingested and nothing is sent |
| Scenarios.IngestionForgetsSender | naming/src/main/java/cn/lzj/nacos/naming/cluster/ServerListManager.java:216-267 | as written, ingesting a heartbeat leaves its site's list empty, so the next check makes nobody healthy |
| Scenarios.CorrectedFirstCycle | naming/src/main/java/cn/lzj/nacos/naming/cluster/ServerListManager.java:138-166 | corrected, a fresh node's first cycle lists the node in its own site and records its beat |
| Scenarios.CorrectedNodeBecomesHealthy | naming/src/main/java/cn/lzj/nacos/naming/cluster/ServerListManager.java:138-207 | corrected, the node is healthy after its second cycle, and exactly one batch has been queued |

## Left out

- Concurrency: `synchronized`, `ConcurrentHashMap` and interleavings between the updater, the reporter and incoming heartbeats. Each method is one sequential step.
- `GlobalExecutor` scheduling, the self-rescheduling of the reporter and the registration in `init` (lines 51-55, 169-173). There is no scheduler, so the tasks are methods a caller invokes.
- Cluster.ServerListManager.NotifyListeners: the Runnable the executor eventually runs reads `listeners`, `servers` and `healthyServers` when it runs (line 274), not when it is queued. The model records the lists at queue time, and does not call the listeners.
- `ServerStatusSynchronizer.send` and `Message` (line 163): the transport is a log of (address, payload) entries.
- `SystemUtils.readClusterConf` (line 74): the file read is an `Option` input, and `None` stands for the `IOException`.
- `System.currentTimeMillis()`: the code reads the clock three times per cycle (lines 144, 186 and 234). The model passes one `now`.
- `SimpleDateFormat` and `lastRefTimeStr` (lines 241-243): this is display formatting that depends on the locale. The field is not modelled.
- Logging, Lombok, Spring wiring and the injected `NetConfig`: the node's own ip and port are parameters.
- Object identity of `Server` records: `setAlive` in the check mutates records that may also be held by `healthyServers` or by another site's list. The model updates the local-site list by value, so updates through that sharing are not modelled.
- `Server` is not part of this model's sources. Its key is taken to be `ip + ":" + Integer.toString(port)`, and its equality to be key equality. `Constants.IP_PORT_SPLITER` is taken to be ':' and `SERVER_EXPIRED_MILLS` to be 15000. A fresh `Server` has `alive` false, `lastRefTime` 0 and the site the empty string; a null site is not distinguished from "".
- Servers.ParseInteger: accepts only ASCII digits. Java's parseInt also accepts other Unicode decimal digits.
- Liveness.Alive: `now - lastBeat` is unbounded. The Java `long` subtraction, which could overflow for timestamps that far apart, is not modelled.
- Reconcile.ReconcileSpec, Reconcile.ReconcileShape, Reconcile.ReconcileOrder: stated for lists without repeated keys. The function `Reconcile` itself models any lists.
- Cluster.ServerListManager.ReportServerStatus: the exception caught at line 167 is modelled only for the two failures the cycle can meet. These are the missing local-site entry and a refused self-payload.
- TaskDispatcher.java is not part of this model: it only forwards to a queue and has no logic of its own.
- The invariant "healthy members are a subset of all members" is not stated, because the code does not keep it: the per-site table is never filtered by `servers`.

## Findings

| source | as written | input that shows it | evidently intended | confidence | as-written member | corrected member |
|---|---|---|---|---|---|---|
| naming/src/main/java/cn/lzj/nacos/naming/cluster/ServerListManager.java:266 | ingestion builds the merged list `tmpServerList` but stores the empty `tempServerList` | any accepted heartbeat: afterwards its site's list is `[]` | store the merged list | not executed | Scenarios.IngestionForgetsSender | Cluster.ServerListManager.OnReceiveServerStatusCorrected |
| naming/src/main/java/cn/lzj/nacos/naming/cluster/ServerListManager.java:251-264 | the merge only replaces records; a sender not yet listed in a non-empty site list is never added | a site list `[A]` and a heartbeat from `B`: the merge returns `[A]` | add the sender when its key is absent | not executed | SiteTable.MergeSiteListOmitsNewSender | SiteTable.UpsertSiteListSpec |
| naming/src/main/java/cn/lzj/nacos/naming/cluster/ServerListManager.java:195-205 | on a transition the healthy list is replaced by the members that just became alive only | healthy `[A]`, `A` still alive, `B` newly alive: the new healthy list is `[B]` | every member alive now | not executed | Liveness.StillAliveMemberDropped | Liveness.CorrectedHealthyMatchesLiveness |
| naming/src/main/java/cn/lzj/nacos/naming/cluster/ServerListManager.java:183-184 | with no local-site entry the check dereferences null, and the report cycle ends before self-ingestion | a freshly started node: no cycle ever ingests or sends | an empty pass, after which the cycle goes on | not executed | Scenarios.FreshNodeNeverReports | Scenarios.CorrectedNodeBecomesHealthy |
