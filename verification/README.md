# Server monitoring: a verified model

The application keeps an inventory of servers, installs one agent process per
machine, listens to the agents' heartbeats, and tells people when a server goes
silent. This project models the parts of its backend that decide something over
time, and proves what they keep:

- **Provisioning and ownership.** One-shot tokens lead to registrations; one
  installation can own many servers, and a server can move from one to another.
- **Heartbeats and offline detection.** Every heartbeat schedules a delayed check;
  monitor jobs, delayed checks and detail pages flip a server's status; online
  time is added up; action items are opened and resolved.
- **Keyset pagination**, forward, backward and by page number.
- **Refresh-token rotation** with a grace window and reuse detection.
- **The uptime report and its null filter**, the **port inventory** and **command
  delivery** of a heartbeat, and the **reconciliation sweep** over action items.

## How the model is built

Tables are sequences or maps; operations that the application performs by changing
rows are methods of a class that holds the tables (`Database.Tables`,
`Sessions.SessionManager`, `Sweep.ActionItemTable`, `Inventory.PortInventory`,
`Commands.CommandQueue`, `Paginator.Builder`). Each method is proved to take the
old tables to a function of them, and the laws are lemmas about those functions
over all inputs and all runs. Proofs by induction are written out; Dafny's automatic
induction is switched off for every lemma it would apply to.

`Fleet` puts provisioning and monitoring together. A *tick* is one heartbeat
(aggregated or single-server), one monitor job, one delayed check or one detail page;
a *change* is one provisioning step; an *event* is either, with an instant and the
threshold setting in force. `Fleet.Run` is the world after any list of events from
empty tables, in time order, with fresh raw tokens. `MonitoringLaws.Watch` is any
list of ticks from any world.

| File | Contents |
|---|---|
| `Common.dfy` | option and result types; the clock: instants in microseconds, stored stamps in whole seconds |
| `Sorting.dfy` | a stable sort for `ORDER BY` and `sortBy`, and its uniqueness |
| `Schema.dfy`, `Database.dfy` | rows and tables shared by provisioning and monitoring |
| `Provisioning.dfy`, `ProvisioningLaws.dfy`, `TokenLaws.dfy` | tokens, registration, ownership; what each step keeps; the life of a token |
| `Monitor.dfy`, `Heartbeat.dfy` | thresholds, action items, the offline and online transitions, heartbeats |
| `Effects.dfy`, `Fleet.dfy` | what one step does to one server; events and runs |
| `FleetLaws.dfy`, `HeardLaws.dfy`, `MonitoringLaws.dfy`, `OnlineTimeLaws.dfy`, `DetectionLaws.dfy` | laws of whole runs |
| `AnswerLaws.dfy`, `OutageLaws.dfy`, `BoardLaws.dfy` | what a heartbeat is answered; the stamp of an outage; the items of an outage |
| `EarlyAlarm.dfy` | a family of runs in which a server that was just heard raises an alarm |
| `Paginator.dfy`, `PaginatorLaws.dfy` | the three pagination modes; walks over a changing table |
| `Sessions.dfy`, `SessionsLaws.dfy`, `RefreshLaws.dfy` | refresh tokens and sessions; their dates and answers |
| `Uptime.dfy`, `FilterNulls.dfy` | report arithmetic and the null filter |
| `Inventory.dfy`, `Commands.dfy` | port unions and port rows; command delivery |
| `Sweep.dfy`, `SweepLaws.dfy` | the sweep over `no_secops` items |

## What the proofs found

Where the code does something other than its comments, its name or the obvious
expectation suggest, the model follows the code and a lemma says exactly when the
expectation holds.

- *Stored dates lose their fraction.* A heartbeat at 12:00:00.9 is stored as
  12:00:00, so an alarm can come up to a second before the threshold has passed;
  `DetectionLaws.EarlyAlarmExactlyWhen` gives the exact window. For the same reason
  online time is exact between stamps and can exceed real time by less than a second
  (`OnlineTimeLaws.StampsVersusInstants`).
- *The threshold is normalized twice.* `computeHealth` divides by 1000 once more. The
  two normalizations agree exactly for settings from 0 to 999999
  (`Monitor.ThresholdsAgree`); larger settings raise alarms early, negative ones make
  every delayed check come too soon to find anything.
- *A second registration silences the siblings.* Registering an installation for one
  more server clears `last_seen_at`, so the next health check of any of its other
  servers takes them offline, however recently they were heard
  (`DetectionLaws.RegistrationSilencesExactlyItsInstallation`). This is the only way to
  an alarm within the threshold of the last stamped heartbeat
  (`DetectionLaws.CheckAlarmsEarlyExactlyWhen`, `DetectionLaws.DetailAlarmsEarlyExactlyWhen`),
  and it does happen: with any two servers, one installation and any valid setting
  (`EarlyAlarm.EarlyAlarmHappens`).
  It delays no alarm: a silent server is found in time whatever is registered
  (`DetectionLaws.NoneOnlineAfterSilence`).
- *Monitors also bring servers online.* A comment in `ServerData` says recovery is left
  to the next heartbeat; `MonitorServer` recovers offline servers as well
  (`MonitoringLaws.OnlineExactlyWhen`).
- *A heartbeat leaves `went_offline_at` as it is.* Only a monitor's recovery clears it, so an
  online server brought back by its agent still carries the second of its last outage
  (`OutageLaws.StampExactly`).
- *A duplicate listing counts twice.* A heartbeat that lists a server twice adds the gap
  twice (`OnlineTimeLaws.DuplicatesOvercount`), so over a run online time is bounded by
  the gaps weighted by listings (`OnlineTimeLaws.OnlineTimeIsBoundedByListings`), which is
  the elapsed time when nothing is listed twice (`OnlineTimeLaws.OnlineTimeIsBounded`).
- *Registration ignores expiry.* Bootstrap checks the clock, registration only the
  status: an expired token registers until something marks it expired
  (`ProvisioningLaws.RegisterIgnoresExpiry`).
- *Only the last token's reuse is noticed.* Presenting a token older than the previous
  one is refused as unknown and compromises nothing
  (`SessionsLaws.OlderTokensGoUnnoticed`). The grace period has no entry in
  `config/jwt.php`, so its default of 30 seconds applies.
- *Both cursors at once are accepted.* The paginator's comment says modes are never
  silently preferred. Of the requests that name several, exactly those that name `page`
  are refused, and `cursor` has influence exactly when `previous_cursor` is absent
  (`PaginatorLaws.ExclusionIsEnforcedExactlyFor`, `PaginatorLaws.CursorMattersExactlyWhen`).
- *An agent that stops listing ports closes none.* Heartbeats whose union is empty are
  skipped, so its ports stay as the last listing heartbeat left them
  (`Inventory.OpenAfterRunExactlyWhen`).
- *Keys without a dictionary close every port.* The ports are left alone exactly when no
  partition lists a key or nothing is left to close
  (`Inventory.KeysWithoutDictionaryCloseEverything`).
- *The uptime bound needs the range.* The report calculates its own start of the range,
  later than the one its updates were selected from, so an update can lie before it; the
  outage fits the range for all updates from an instant on exactly when that instant is
  not before the start (`Uptime.RangeBoundHoldsExactlyWhen`).
- *The sweep pages by offset over rows it removes*, so it can skip rows. It still closes
  at least half of the stale ones each time (`SweepLaws.SweepHalvesStale`), and of 101
  to 200 pending rows that are all stale it leaves exactly those past the first hundred
  (`SweepLaws.AllStaleLeavesTheSecondPage`).
- *A command acknowledged as pending goes out again*, and no other does
  (`Commands.ResentExactlyWhen`).

## Model

| member | source | states |
|---|---|---|
| Fleet.Run | app/Services/ProvisioningService.php:24-395 | in every world reached from empty tables by any mix of events: an agent is active exactly when some server points at it, installations are distinct, owners exist and a legacy pointer names an owned server; tokens are distinct, at most one is active per server |
| Fleet.ChangeKeeps | app/Services/ProvisioningService.php:24-395 | each provisioning step keeps those facts, and token statuses only ever leave active |
| Fleet.TickEffect | app/Services/HeartbeatService.php:37-537 | each tick, seen from one server: its new status by cause, exactly one log entry per change of status, the online seconds earned, items kept in agreement with the status, and no other column moved |
| Fleet.TickRegistry | app/Services/HeartbeatService.php:269-288 | no tick touches ownership, flags or tokens; of agents only the one that beat changes, and only in `last_seen_at` |
| FleetLaws.TokensAdvance | app/Services/ProvisioningService.php:47-67 | along every run tokens are only added, never rewritten, and never become active again |
| FleetLaws.TokenRegistersOnce | app/Services/ProvisioningService.php:264-293 | in any run a token completes at most one registration |
| FleetLaws.BoardAgreesWithStatus | app/Jobs/MonitorServer.php:132-150 | in every run, provisioning included, a server stored as online has no open `server_offline` item and one stored as offline has one |
| FleetLaws.ProvisionedServerComesOnline | app/Services/ProvisioningService.php:262-395 | one step after the other: an issued token registers whatever installation presents it, then that installation alone is heard for the server, and any heartbeat accepted for the server brings it online; `HeardLaws.RegisteredServerComesOnline` allows any steps in between |
| HeardLaws.RegisteredServerComesOnline | app/Services/ProvisioningService.php:307-390 | in any run, once a registration for a server has succeeded and until another step moves the server, the heartbeats accepted for it are exactly those of that agent that name it, and each brings it online |
| HeardLaws.HeardExactlyWhen | app/Services/HeartbeatService.php:200-246 | in any run a heartbeat is accepted for a server if and only if it names it and its agent's installation registered for it last |
| HeardLaws.OwnerIsLastRegistrant | app/Services/ProvisioningService.php:388-390 | in any run the owner of a server is the agent that registered for it last |
| HeardLaws.SeenExactly | app/Services/ProvisioningService.php:336-350 | in any run an active agent's `last_seen_at` is the stamp of its last heartbeat if it has one and its installation has not registered since, and empty otherwise |
| FleetLaws.RegisteredOwner | app/Services/ProvisioningService.php:307-390 | a registration with an active token makes its installation the one agent heartbeats are accepted from |
| MonitoringLaws.LogFollowsStatus | app/Jobs/MonitorServer.php:76-222 | in any monitoring run from any world the logged online and offline transitions of a server strictly alternate, start with a change and end at the stored status, whichever of the three writers acts |
| MonitoringLaws.OnlineExactlyWhen | app/Jobs/MonitorServer.php:154-160 | a tick brings a server online if and only if its owner's heartbeat lists it or a health check finds it offline with its owner seen in time |
| MonitoringLaws.OfflineExactlyWhen | app/Data/ServerData.php:354-412 | a tick takes a server offline if and only if a check, or a detail page that gets the lock, finds its active owner overdue |
| MonitoringLaws.AcceptedIsOwned | app/Services/HeartbeatService.php:214-242 | a server accepted in a heartbeat is in service and belongs to the agent that beat, which is active |
| MonitoringLaws.DecommissionedIsFrozen | app/Jobs/MonitorServer.php:48-56 | a server flagged deleted or archived is the same row with the same log after any monitoring run |
| MonitoringLaws.EveryListingIsAnswered | app/Services/HeartbeatService.php:200-246 | counted with repetitions, every listing that names a uuid is answered once, as accepted or as revoked, and no uuid is both |
| AnswerLaws.AggregatedAnswer | app/Services/HeartbeatService.php:198-246 | every aggregated heartbeat, whatever the tables, agent and list: refused without effect if and only if the agent has no active row; otherwise each text is answered as often as it was listed, as accepted if it is the uuid of a stored server of that agent that is neither deleted nor archived, as revoked if it is any other text but the empty one and "0"; and whatever is accepted is stored online afterwards |
| AnswerLaws.AnswersKeepOrder | app/Services/HeartbeatService.php:428-429 | both lists of the answer keep the order of the listings |
| AnswerLaws.LegacyAnswer | app/Http/Controllers/Api/V1/AgentController.php:228-273 | every single-server heartbeat: refused if and only if the agent has no active row, forbidden if and only if it then does not serve that server, and otherwise accepted with the server online |
| AnswerLaws.UuidIsFiveGroups | app/Services/HeartbeatService.php:206-210 | a listed text is taken for a uuid if and only if it is five groups of hexadecimal digits, 8-4-4-4-12, joined by hyphens |
| MonitoringLaws.ShownIsStoredUnless | app/Data/ServerData.php:333-422 | the exact condition under which a detail page shows a status other than the one stored after it |
| MonitoringLaws.ShownOfflineExactlyWhen | app/Data/ServerData.php:333-422 | a page shows a server that is not stored offline as offline if and only if its active owner is overdue and it is past its first heartbeat and not uninstalled; otherwise it shows what is stored, or `agent_uninstalled` for a deleted server |
| MonitoringLaws.PagesAlarmAMinuteApart | app/Data/ServerData.php:358-369 | in any monitoring run from any world two detail pages that take the same server offline are at least sixty seconds apart |
| MonitoringLaws.ChecksAreConserved | app/Services/HeartbeatService.php:378-381 | delayed checks are conserved: each accepted listing schedules one, due two seconds past the threshold, a check that runs is used up, and no other tick adds or drops any |
| OutageLaws.TickStamp | app/Jobs/MonitorServer.php:86-89 | whatever a tick does, `went_offline_at` becomes the second of the tick if and only if the server goes offline, is cleared by a recovery that is not a heartbeat, and else stays as it was |
| OutageLaws.StampExactly | app/Jobs/MonitorServer.php:86-89 | in every run `went_offline_at` is the second of the last step that took the server offline, or empty if there was none or a monitor has recovered the server since |
| OutageLaws.OfflineSinceItsStamp | app/Data/ServerData.php:367-370 | in every run an offline server carries the second in which it last went offline |
| BoardLaws.GoingOfflineRaises | app/Jobs/MonitorServer.php:132-150 | whatever takes a server offline puts an open, unclaimed `server_offline` item with the server and its client on the board |
| BoardLaws.RaisedIsOnBoard | app/Jobs/MonitorServer.php:132-150 | the row of that server and client is reopened and taken from its holder, and only if there is none a row with an id above all others is added; no other row moves |
| BoardLaws.OfflineIsOnBoard | app/Jobs/MonitorServer.php:132-150 | in every run an offline server has that item on the board |
| BoardLaws.HeartbeatClears | app/Services/HeartbeatService.php:525-536 | a heartbeat completes the claimed and deletes the unclaimed open `server_offline` items of the servers it is accepted for, and leaves every other row |
| BoardLaws.RecoveryClears | app/Jobs/MonitorServer.php:196-222 | a health check that finds the owner in time does so for every open item of the server whose type contains `offline`, and for no other row |
| BoardLaws.OneItemEach | app/Jobs/MonitorServer.php:132-150 | in every run item ids are distinct and no server of a client has two `server_offline` items, however often it goes offline |
| OnlineTimeLaws.OnlineTimeIsBounded | app/Services/HeartbeatService.php:469-477 | over every run with re-registrations in which no heartbeat lists the server twice, its online seconds never exceed the time from the heartbeat that first brought it online (or, when a monitor did, from the owner's heartbeat the monitor relied on) to the latest one accepted for it, and equal it exactly when every heartbeat was tight |
| OnlineTimeLaws.OnlineTimeIsBoundedByListings | app/Services/HeartbeatService.php:263-268 | over every run, duplicate listings included, a server's online seconds never exceed the sum of the gaps between the heartbeats accepted for it, each taken once for every time its heartbeat lists the server, and equal that sum exactly when every heartbeat was tight |
| OnlineTimeLaws.AcceptedGain | app/Services/HeartbeatService.php:43-47 | one accepted heartbeat adds at most the time since the previous one, once per listing, and all of it if and only if it is tight: same second, or still online, owner not seen in between, gap within threshold + 5 |
| OnlineTimeLaws.DuplicatesOvercount | app/Services/HeartbeatService.php:263-268 | a heartbeat listing an online server n times adds n times the gap, which fits the gap if and only if n is at most one or nothing counts |
| OnlineTimeLaws.StampsVersusInstants | app/Services/HeartbeatService.php:471 | time between stamps exceeds time between instants by less than a second, and not at all from a whole second |
| OnlineTimeLaws.ChangeClears | app/Services/ProvisioningService.php:333-357 | a provisioning step only ever clears `last_seen_at`, and an owner still seen after it owned the server before it |
| DetectionLaws.NoneOnlineAfterSilence | app/Services/HeartbeatService.php:378-381 | over every run from empty tables, provisioning and registrations mixed in anywhere, monitored under one non-negative setting with every heartbeat listing all of its agent's servers: once all due checks have run, a server is online only if its owner beat less than threshold + 2 seconds ago |
| DetectionLaws.CheckAlarmsEarlyExactlyWhen | app/Jobs/MonitorServer.php:61-73 | over every run, below a million: a health check takes a server offline within the threshold of its owner's last heartbeat as stamped if and only if that installation has registered again since |
| DetectionLaws.DetailAlarmsEarlyExactlyWhen | app/Data/ServerData.php:349-412 | the same for a detail page, together with its lock and the states it does not write in |
| EarlyAlarm.EarlyAlarmHappens | app/Services/ProvisioningService.php:341-350 | for any two servers and tokens, any acceptable metadata and any setting from 0 to 999999 there is a run that ends with the first server online, its owner heard one second ago within the threshold, and the next health check takes it offline: the second registration of its installation came in between |
| DetectionLaws.CheckTakesOfflineExactlyWhen | app/Jobs/MonitorServer.php:61-73 | over every run, under any setting: a health check takes a server offline if and only if its owner never beat, registered since, or beat longer ago than the health threshold |
| DetectionLaws.NoneOfflineWhileHeard | app/Jobs/MonitorServer.php:61-73 | from any world, decommissioned servers included, a run of ticks takes a server offline only more than the threshold after the last heartbeat its owner made in that run |
| DetectionLaws.RunIsGuarded | app/Services/HeartbeatService.php:378-381 | the invariant behind detection, over the same runs: every online server has the check of its owner's last heartbeat still ahead of it, even when a registration has cleared `last_seen_at` |
| DetectionLaws.CheckFindsSilenceExactlyWhen | app/Models/Server.php:102-116 | the delayed check of a heartbeat finds its silent agent offline if and only if the setting is not negative |
| DetectionLaws.AlarmsWaitExactlyWhen | app/Models/Server.php:102-116 | no alarm comes within the threshold of a stamp if and only if the setting is below a million |
| DetectionLaws.ThresholdsAre | app/Models/Server.php:102-109 | for every setting, the threshold checks are scheduled by and the one silence is measured by, in numbers |
| DetectionLaws.EarlyAlarmExactlyWhen | app/Models/Server.php:111-113 | the exact window in which an alarm precedes the threshold, because a stamp lost its fraction |
| DetectionLaws.SeenIsLastBeat | app/Services/HeartbeatService.php:283-286 | after a monitoring run `last_seen_at` is the stamp of the agent's last authenticated heartbeat |
| DetectionLaws.RegistrationSilencesExactlyItsInstallation | app/Services/ProvisioningService.php:341-350 | a registration leaves exactly the servers of its installation with an unseen owner, so the next health check takes each of them offline; every other server's owner is seen as before |
| Monitor.ThresholdsAgree | app/Models/Server.php:102-109 | the two normalizations of the threshold agree if and only if the raw setting is between 0 and 999999 |
| Monitor.HandleOfflineTransition | app/Jobs/MonitorServer.php:76-152 | the whole effect of the offline transition, once per change; what it means is `OutageLaws.TickStamp` for the stamp, `BoardLaws.GoingOfflineRaises` for the item, `Effects.WentOfflineEffect` for status and log |
| Monitor.HandleOnlineRecovery | app/Jobs/MonitorServer.php:154-222 | the whole effect of recovery: only an offline server comes online, items are resolved in any case; its laws are `Effects.RecoveredEffect` and `MonitoringLaws.OnlineExactlyWhen` |
| Monitor.MonitorServer | app/Jobs/MonitorServer.php:41-74 | which servers a monitor run looks at and which transition it takes |
| Monitor.CheckServerOffline | app/Jobs/CheckServerOffline.php:14-19 | a delayed check is consumed and is one monitor run |
| Monitor.ShowStatus | app/Data/ServerData.php:333-422 | what a detail page writes and shows; its laws are `OutageLaws.TickStamp`, `MonitoringLaws.ShownOfflineExactlyWhen` and `MonitoringLaws.PagesAlarmAMinuteApart` |
| Effects.BeatenEffect | app/Services/HeartbeatService.php:263-389 | a heartbeat, seen from one server: credited once per listing before the agent is seen, then online, logged once, its check scheduled, its items resolved |
| Effects.ResolvedFate | app/Jobs/MonitorServer.php:199-221 | resolving completes a claimed item, deletes an unclaimed one and keeps every other row |
| Effects.RaisedOpensItsOwn | app/Jobs/MonitorServer.php:132-150 | raising leaves an open, unclaimed item of the server and touches no other server's |
| Effects.ResolvedHasNoOpenItem | app/Services/HeartbeatService.php:524-536 | resolving leaves no open item of the server and opens none of any other |
| Effects.WentOfflineEffect | app/Jobs/MonitorServer.php:85-150 | the offline transition, seen from one server, logs exactly one change and touches no other server |
| Effects.RecoveredEffect | app/Jobs/MonitorServer.php:154-222 | recovery, seen from one server, brings back only an offline one and leaves it no open item |
| Heartbeat.ProcessAgent | app/Services/HeartbeatService.php:198-454 | the aggregated heartbeat takes the tables to the specified ones and gives the specified answer; what the answer holds is `AnswerLaws.AggregatedAnswer` |
| Heartbeat.Process | app/Http/Controllers/Api/V1/AgentController.php:228-273 | the single-server heartbeat behind its ownership and lifecycle guards; a refused one changes nothing |
| Heartbeat.Partition | app/Services/HeartbeatService.php:200-246 | the first loop collects exactly the acceptable servers and refuses every other named one |
| Heartbeat.AccumulateOnlineSeconds | app/Services/HeartbeatService.php:469-477 | adds the whole seconds since the agent was last seen if they count, nothing otherwise; what that comes to over a run is `OnlineTimeLaws.OnlineTimeIsBounded` |
| Heartbeat.BringServerOnline | app/Services/HeartbeatService.php:479-537 | online and logged if it was not; items resolved in any case; its laws are `Effects.BeatenEffect` and `FleetLaws.BoardAgreesWithStatus` |
| Provisioning.GenerateToken | app/Services/ProvisioningService.php:24-110 | refused for archived or installed servers, a conflict for a live token, else the old tokens are revoked and one is issued for thirty minutes |
| Provisioning.RegenerateToken | app/Services/ProvisioningService.php:112-130 | revokes first and then generates, so a refusal still revokes; its law is `TokenLaws.RegenerateIssuesExactlyWhen` |
| Provisioning.ForceReinstallToken | app/Services/ProvisioningService.php:132-200 | revokes and issues; when, for whom and what is `TokenLaws.ForceReinstallIssuesExactlyWhen` |
| Provisioning.RegisterAgent | app/Services/ProvisioningService.php:262-395 | the whole effect of a registration on token, server, old owner and new owner, and its refusals |
| Provisioning.DisplaceOwner | app/Services/ProvisioningService.php:316-334 | the old owner loses its pointer to the server, and its activity when it owns nothing else |
| Provisioning.AttachServer | app/Services/ProvisioningService.php:307-390 | displacement, adoption and attachment in the code's order |
| Provisioning.Bootstrap | app/Services/ProvisioningService.php:202-208 | accepts exactly an active, unexpired, unused and unrevoked token |
| Provisioning.CheckTokenExpiration | app/Models/Server.php:129-138 | a waiting server with no live token falls back, and its token expires; its law is `TokenLaws.WaitingFallsBackExactlyWhen` |
| Provisioning.CleanupTokens | app/Console/Commands/CleanupProvisionTokens.php:27-31 | exactly the active tokens past their expiry become expired; its law is `ProvisioningLaws.CleanupLeavesTheLastSecond` |
| ProvisioningLaws.AttachKeepsOwnership | app/Services/ProvisioningService.php:307-390 | moving a server between installations keeps all four ownership facts |
| ProvisioningLaws.RegisterKeeps | app/Services/ProvisioningService.php:262-395 | a registration keeps ownership and tokens and spends exactly the token it was given |
| ProvisioningLaws.RegisterIgnoresExpiry | app/Services/ProvisioningService.php:264-268 | with acceptable metadata a registration succeeds if and only if the token is active, expired or not |
| ProvisioningLaws.SpentTokenIsRefused | app/Services/ProvisioningService.php:266-268 | a token that is not active registers nothing |
| ProvisioningLaws.DisplacedOnlyWhenItOwnsNothingElse | app/Services/ProvisioningService.php:316-334 | the displaced owner is revoked if and only if the server was all it owned |
| ProvisioningLaws.OwnersAreActive | app/Models/Server.php:57-64 | the owner of every server is an active agent, so the `agent` relation resolves whenever `agent_id` is set |
| ProvisioningLaws.PrimaryIsMonitored | app/Services/AgentAuthService.php:43-53 | a session never names a foreign or decommissioned server, and names one whenever the agent monitors any |
| ProvisioningLaws.PrimaryExactly | app/Services/AgentAuthService.php:43-53 | a session names the server the agent's row points at while the agent owns it and it is neither deleted nor archived, else the first such server in order, else none |
| ProvisioningLaws.GenerateIssuesExactlyWhen | app/Services/ProvisioningService.php:24-75 | a token is issued if and only if the server is not archived, has no owner and no live token; it is then the server's only active one, and a refusal changes nothing |
| TokenLaws.GenerateAnswers | app/Services/ProvisioningService.php:24-110 | every answer of a generation with its reason: archived, owned, a live token in the way, or a token; a refusal changes nothing, an issue withdraws the old tokens, adds one that is the only active one and expires thirty minutes later, and puts the server back in service to wait |
| TokenLaws.RegenerateIssuesExactlyWhen | app/Services/ProvisioningService.php:112-130 | regeneration issues if and only if the server is not archived and has no owner, and withdraws its active tokens in either case |
| TokenLaws.ForceReinstallIssuesExactlyWhen | app/Services/ProvisioningService.php:132-159 | a forced reinstall issues if and only if the server is not archived, whoever owns it: the answer carries the raw token, the old ones are withdrawn, the new one is the only active one and lives thirty minutes, owner and status stay; a refusal changes nothing |
| TokenLaws.WaitingFallsBackExactlyWhen | app/Models/Server.php:129-138 | a waiting server falls back to pending if and only if no live token waits for it, and the token it still had is expired from then on |
| TokenLaws.RegisterNeedsActiveToken | app/Services/ProvisioningService.php:262-268 | without an active token of that text a registration is answered 410 and changes nothing |
| TokenLaws.RegisterAnswers | app/Services/ProvisioningService.php:270-390 | with one it is answered 422 without effect if the installation id, the key or the hash is missing or malformed; otherwise the token is used, the server waits for its new owner's first heartbeat with every other column as it was, and the owner's row is active, unseen and points where it pointed or at this server |
| TokenLaws.DisplacedOwnerRow | app/Services/ProvisioningService.php:315-335 | the owner that loses the server keeps its row but for a pointer at that server, unless it is left with nothing: then it is revoked and unseen; every other agent row is untouched |
| FleetLaws.PresentedExactlyWhile | app/Services/ProvisioningService.php:203-209 | over every run the bootstrap accepts a token if and only if it is active and thirty minutes have not passed since the second in which some step issued it |
| ProvisioningLaws.WaitingMeansLiveToken | app/Models/Server.php:129-138 | after the expiry check a server is waiting for an installation if and only if it was and a live token still waits for it |
| ProvisioningLaws.CleanupLeavesTheLastSecond | app/Console/Commands/CleanupProvisionTokens.php:29-31 | a token survives the cleanup if and only if it was active and expired less than a second ago, if at all |
| TokenLaws.CleanupOnlyExpires | app/Console/Commands/CleanupProvisionTokens.php:27-31 | the cleanup moves nothing of any token but the status, and that of exactly the active ones at least a whole second past their expiry |
| ProvisioningLaws.RegenerateNeverConflicts | app/Services/ProvisioningService.php:112-130 | regeneration cannot answer with a conflict |
| Paginator.PrefixFilterIsLexicographic | app/Services/HybridPaginator.php:142-173 | for any number of columns the or-of-prefix-equalities filter is the strict lexicographic order |
| Paginator.ApplyBefore | app/Services/HybridPaginator.php:142-155 | the nested loops build exactly that filter for rows below the key |
| Paginator.ApplyAfter | app/Services/HybridPaginator.php:160-173 | the same for rows above the key |
| Paginator.ByPage | app/Services/HybridPaginator.php:44-63 | offset mode returns the page, its flags and its counts |
| Paginator.ByPreviousCursor | app/Services/HybridPaginator.php:70-87 | fetching one row too many oldest first and turning round gives the rows just above the key |
| Paginator.ByCursor | app/Services/HybridPaginator.php:89-109 | fetching one row too many newest first gives the rows just below the key |
| Paginator.Paginate | app/Services/HybridPaginator.php:25-109 | which mode answers which request, and the four refusals; what each answer holds is `PaginatorLaws.ForwardAnswerIs`, `PaginatorLaws.BackwardAnswerIs` and `PaginatorLaws.PageAnswerIs`, when one is refused `PaginatorLaws.RefusedExactlyWhen` |
| PaginatorLaws.ForwardAnswerIs | app/Services/HybridPaginator.php:89-109 | a request without page and `previous_cursor` is answered with the first rows after its cursor, or of all, in descending order and as many as the page size allows; with a cursor to the next page if and only if more rows follow, and one to the previous page if and only if it came with a cursor and got rows |
| PaginatorLaws.BackwardAnswerIs | app/Services/HybridPaginator.php:70-87 | a request with `previous_cursor` and no page is answered with the rows just before that cursor, in the same order; with a cursor to the previous page if and only if more come earlier |
| PaginatorLaws.PageAnswerIs | app/Services/HybridPaginator.php:44-63 | a request for page n is answered with the rows from position (n - 1) times the size to n times the size of the descending order, the exact flags, and the least number of pages that hold all rows |
| PaginatorLaws.PageSizeIs | app/Services/HybridPaginator.php:27 | fifty rows when no number is asked for, else that number brought into 1 to 200 |
| PaginatorLaws.RefusedExactlyWhen | app/Services/HybridPaginator.php:36-74 | for each refusal but the mutual exclusion, the requests that meet it, and no other does |
| PaginatorLaws.WalkReturnsEachRowOnce | app/Services/HybridPaginator.php:89-137 | a walk of requests, each with the previous answer's `next_cursor`, over a table that changes between requests returns every key present throughout exactly once, in strictly descending order |
| PaginatorLaws.WalkDescends | app/Services/HybridPaginator.php:89-137 | a walk's keys strictly descend from where it started |
| PaginatorLaws.WalkCovers | app/Services/HybridPaginator.php:89-137 | a key that stays in the table is met by every walk of requests that starts before it |
| PaginatorLaws.CollectedComeFromTables | app/Services/HybridPaginator.php:102-108 | every row returned was in the table its page was read from |
| PaginatorLaws.BackWalkReturnsEachRowOnce | app/Services/HybridPaginator.php:70-87 | a walk of requests, each with the previous answer's `previous_cursor`, to the first page over a table that changes between requests returns every key above its start that is present throughout, in exactly one place of the pages put together, which descend strictly |
| PaginatorLaws.BackWalkAscends | app/Services/HybridPaginator.php:70-87 | each page of such a walk lies above the one before it and above where the walk started: put together, last page first, the keys strictly descend |
| PaginatorLaws.BackWalkCovers | app/Services/HybridPaginator.php:70-87 | a key above the start that stays in the table is met, whatever else comes and goes |
| PaginatorLaws.CursorAndOffsetAgree | app/Services/HybridPaginator.php:44-63 | on a fixed table the k-th page reached by requests with `next_cursor` and the answer to a request for page k + 1 have the same rows and flags |
| PaginatorLaws.BackwardUndoesForward | app/Services/HybridPaginator.php:70-87 | on a fixed table a request with the `previous_cursor` of a page is answered with the page before it, down to its cursors and flags |
| PaginatorLaws.ExclusionIsEnforcedExactlyFor | app/Services/HybridPaginator.php:29-36 | of the requests naming more than one mode exactly those naming `page` are refused as mutually exclusive, and no other request is |
| PaginatorLaws.CursorMattersExactlyWhen | app/Services/HybridPaginator.php:70-94 | `cursor` influences the answer if and only if `previous_cursor` is absent |
| Sessions.BuildThenParse | app/Services/JwtService.php:89-105 | parsing a built token gives its parts back if and only if the id has no dot |
| Sessions.ParsedTextIsRebuilt | app/Services/JwtService.php:94-105 | a token parses exactly when it has a dot, and rebuilding the parts gives the token |
| Sessions.SessionManager.CreateSession | app/Services/SessionManager.php:17-52 | the new session row and the token handed out; how long the token works is `SessionsLaws.CreatedTokenLivesItsTtl` |
| Sessions.SessionManager.RotateRefreshToken | app/Services/SessionManager.php:54-83 | current becomes previous, the new token becomes current, the old id is logged, `expires_at` stays; that it dates the session is `RefreshLaws.LastRefreshExactly` |
| Sessions.SessionManager.RevokeSession | app/Models/UserSession.php:80-83 | sets the revocation date and nothing else; that it is final is `SessionsLaws.UnusableIsForever` |
| Sessions.SessionManager.Compromise | app/Models/UserSession.php:85-92 | sets the compromise and revocation dates and nothing else; that it is final is `SessionsLaws.UnusableIsForever`, when it happens `SessionsLaws.PreviousOutsideGraceCompromises` |
| Sessions.SessionManager.RevokeAllUserSessionsExcept | app/Services/SessionManager.php:100-107 | exactly the user's other live sessions are revoked, and counted |
| Sessions.SessionManager.ValidateAndRotate | app/Services/RefreshTokenRotationService.php:15-98 | which session a token finds, every refusal in the code's order, and what each outcome writes; its laws are `RefreshLaws.CurrentIdAnswers`, `RefreshLaws.UnknownTokenAnswers` and `RefreshLaws.ReplacedTokenWorksExactlyWhile` |
| SessionsLaws.FromEmptyTables | app/Services/SessionManager.php:54-83 | in every run with fresh ids a session's log followed by its current token is exactly the tokens handed out for it, its previous id is the last logged, and no id is stored twice |
| SessionsLaws.LogIsIssueHistory | app/Services/SessionManager.php:54-83 | the same from any state that satisfies the invariant |
| SessionsLaws.SucceedsExactlyWhen | app/Services/RefreshTokenRotationService.php:15-98 | a refresh succeeds for a session if and only if it is usable and the token is its current one, or its previous one inside the grace window |
| SessionsLaws.HandedOutTokenWorks | app/Services/SessionManager.php:54-83 | a token just handed out refreshes its session if and only if the session is usable then |
| SessionsLaws.CreatedTokenLivesItsTtl | app/Services/SessionManager.php:29-46 | the token of a new session works if and only if its lifetime in days has not passed |
| SessionsLaws.AtMostTwoTokensWork | app/Services/RefreshTokenRotationService.php:25-98 | of all tokens ever issued for a session only the last two can succeed, the older of them only in the grace window |
| SessionsLaws.PreviousOutsideGraceCompromises | app/Services/RefreshTokenRotationService.php:28-58 | presenting the previous id outside the grace conditions compromises the session, whatever the secret |
| SessionsLaws.OlderTokensGoUnnoticed | app/Services/RefreshTokenRotationService.php:60 | presenting any older token is refused and changes nothing |
| SessionsLaws.UnusableIsForever | app/Models/UserSession.php:80-92 | once revoked, compromised or expired, no later operations refresh the session |
| SessionsLaws.SuccessWithinLifetime | app/Services/SessionManager.php:31-46 | every success lies within the lifetime the session was created with, however often it rotated |
| SessionsLaws.RevokeOthersSilences | app/Services/SessionManager.php:100-107 | after signing out everywhere else no other session of the user is usable, and every session it does not select is untouched |
| RefreshLaws.LastRefreshExactly | app/Services/SessionManager.php:66-79 | in every run a session's `last_refresh_at` is the second in which a token was last handed out for it, at its creation or by a refresh, and its log holds the second of every refresh |
| RefreshLaws.ReplacedTokenWorksExactlyWhile | app/Services/RefreshTokenRotationService.php:28-54 | after a refresh, and whatever is done to other sessions until the next, the token it replaced succeeds again if and only if the session is usable and at most thirty seconds have passed since the second of that refresh |
| RefreshLaws.CurrentIdAnswers | app/Services/RefreshTokenRotationService.php:63-98 | a token with a session's current id: wrong secret, compromised, revoked, expired, in this order, each without effect, or a refresh |
| RefreshLaws.UnknownTokenAnswers | app/Services/RefreshTokenRotationService.php:17-60 | a text without a dot, or with an id no session holds, is refused and changes nothing |
| RefreshLaws.SessionsAreCreations | app/Services/SessionManager.php:31-46 | in every run a session keeps the user, uuid and expiry it was created with, and there is one for every creation |
| RefreshLaws.SignOutElsewhereExactly | app/Services/SessionManager.php:100-107 | exactly the user's other live sessions get a revocation date, no other column or row moves, and the count is theirs |
| Uptime.CalcUptime | app/Http/Controllers/ReportController.php:609-685 | the loop over sorted updates computes the outage tally of the chain of instants and the report made of it |
| Uptime.OutageTelescopes | app/Http/Controllers/ReportController.php:637-665 | gaps of an ascending chain telescope: the outage fits between its ends, and each outage takes more than fifteen minutes of it |
| Uptime.InRangeBounds | app/Http/Controllers/ReportController.php:667-684 | for updates inside the range the cap is a no-op, the percentage needs no clamp, and outages number fewer than four an hour |
| Uptime.OrderIndependent | app/Http/Controllers/ReportController.php:634-635 | permuting the updates changes nothing in the report |
| Uptime.AddingAnUpdate | app/Http/Controllers/ReportController.php:646-656 | adding an update inside the range never increases the outage |
| Uptime.MoreUpdatesNeverHurt | app/Http/Controllers/ReportController.php:634-684 | more updates inside the range never lower the percentage |
| Uptime.GeneralFormulaCoversEmpty | app/Http/Controllers/ReportController.php:618-628 | the early return agrees with the general formula in everything but where the last outage ended |
| Uptime.RangeBoundHoldsExactlyWhen | app/Http/Controllers/ReportController.php:615-616 | the outage fits the range for all updates from an instant on if and only if that instant is not before the start of the range calculated from the report's own `now()` |
| Uptime.OutagesAreLongGaps | app/Http/Controllers/ReportController.php:637-665 | outage time and number of outages are the sum and the number of the gaps of more than fifteen minutes |
| Uptime.LastDowntimeIs | app/Http/Controllers/ReportController.php:639-664 | the last downtime is the end of the latest such gap, and there is none if and only if there is no such gap |
| Uptime.ReportFigures | app/Http/Controllers/ReportController.php:667-684 | with at least one update the hours are what the outages leave of the range and the percentage is that share, each within half a hundredth |
| Uptime.FiguresOfNoRange | app/Http/Controllers/ReportController.php:672-674 | over no hours or a negative number of them percentage and hours are zero |
| Uptime.ChainIs | app/Http/Controllers/ReportController.php:615-635 | the instants the figures are taken from: the start of the range, the updates in ascending order, and now |
| FilterNulls.FilterNulls | app/Http/Controllers/ReportController.php:691-708 | the recursive loop computes the filtered tree |
| FilterNulls.FilteredIsClean | app/Http/Controllers/ReportController.php:691-708 | no null and no empty array is left at any depth below the root |
| FilterNulls.FilteredKeepsLeaves | app/Http/Controllers/ReportController.php:691-708 | exactly the scalar leaves remain, at their paths and in their order |
| FilterNulls.FilteredIsTheOnlyOne | app/Http/Controllers/ReportController.php:691-708 | a tree with distinct keys is the filtered one if and only if it is clean and has the same leaves |
| FilterNulls.CleanIffFixed | app/Http/Controllers/ReportController.php:691-708 | filtering changes nothing if and only if the tree is clean |
| FilterNulls.Idempotent | app/Http/Controllers/ReportController.php:691-708 | filtering twice is filtering once |
| Inventory.BuildUnion | app/Services/HeartbeatService.php:304-338 | the nested loops build the union of all partitions |
| Inventory.KeysAndObjectsGiveTheSameUnion | app/Services/HeartbeatService.php:304-338 | key lists with a dictionary that resolves them give the same union as full objects |
| Inventory.PortInventory.UpdatePorts | app/Services/HeartbeatService.php:781-820 | upsert and closing loops leave reported ports at their last report and close the agent's others |
| Inventory.PortInventory.UpdateFromPartitions | app/Services/HeartbeatService.php:304-341 | an empty union leaves the table alone |
| Inventory.UpdateTouchesOnlyItsAgent | app/Services/HeartbeatService.php:781-820 | no row is deleted, no other agent's row changes, and new rows are reported ones |
| Inventory.OpenIffReported | app/Services/HeartbeatService.php:787-819 | an agent's port is open afterwards if and only if it was reported and its last report states something other than `closed` |
| Inventory.ReportedRowIs | app/Services/HeartbeatService.php:792-804 | a port's row after an update holds the state (`listening` by default) and process of its last report, under the reported number and protocol (`tcp` by default), dated with the update |
| Inventory.UnreportedRowIs | app/Services/HeartbeatService.php:813-819 | a port without a report keeps its row but for the state, which is closed if it is the agent's |
| Inventory.ResolvedKeysExactly | app/Services/HeartbeatService.php:304-338 | of listed keys exactly those the dictionary knows, or knows as a TCP port number, reach the union, as what they stand for |
| Inventory.UnionExactly | app/Services/HeartbeatService.php:304-338 | the union holds exactly what some partition adds: full objects as they are whether or not there is a dictionary, keys as what they stand for, or as bare keys without one |
| Inventory.OpenAfterRunExactlyWhen | app/Services/HeartbeatService.php:304-341 | after any list of heartbeats of any agents a port is open if and only if the last heartbeat of its agent that listed any port left it open, or, when none did, it was open at the start |
| Inventory.UnionProtectsEveryPartition | app/Services/HeartbeatService.php:304-338 | what one server's partition reports is in the union whatever the others leave out |
| Inventory.UpdateIsIdempotent | app/Services/HeartbeatService.php:781-820 | reporting the same again changes nothing |
| Inventory.KeysWithoutDictionaryCloseEverything | app/Services/HeartbeatService.php:324-341 | key lists without a dictionary change nothing but the states of the agent's ports, which all close if any key is listed; the table stays as it is if and only if no key is listed or nothing is left to close |
| Commands.CommandQueue.ClaimPendingCommands | app/Services/HeartbeatService.php:557-583 | the due commands, sorted, are returned and marked sent |
| Commands.CommandQueue.ProcessCompletedCommands | app/Services/HeartbeatService.php:853-862 | each acknowledgement of a known command sets its status, `completed` by default |
| Commands.ResponseIsExact | app/Services/HeartbeatService.php:557-583 | a response carries exactly the agent's pending commands that are not at their expiry yet, each once, the lower priority number first and the older of two with the same number |
| Commands.ClaimingSends | app/Services/HeartbeatService.php:569-574 | what a response carries is marked sent, and nothing else of any row moves |
| Commands.SentAtMostOnce | app/Services/HeartbeatService.php:557-583 | in any run whose acknowledgements never say pending no command is in two responses |
| Commands.ResentExactlyWhen | app/Services/HeartbeatService.php:865-870 | in any run a command already sent is in a response if and only if the last acknowledgement since its latest sending says pending and the heartbeat is its agent's and before its expiry |
| Sweep.ActionItemTable.SyncNoSecOpsClients | app/Console/Commands/SystemMonitor.php:49-93 | the whole table after one sweep |
| Sweep.ActionItemTable.CloseByChunks | app/Console/Commands/SystemMonitor.php:76-92 | paging by offset over a selection its own callback shrinks closes exactly the rows the specification names |
| SweepLaws.SweepSparesTheRest | app/Console/Commands/SystemMonitor.php:49-93 | no item of a client that still lacks SecOps is closed, no row of another kind is touched, and every such client has an item |
| SweepLaws.SweepOpensItem | app/Console/Commands/SystemMonitor.php:49-72 | a client that newly lacks SecOps has an item after the sweep: open, unclaimed, with an id above all that were there |
| SweepLaws.SweepAddsNoSecond | app/Console/Commands/SystemMonitor.php:60-72 | a client that lacks SecOps and has an item, open or completed, gets no second one, and its own stays as it is |
| SweepLaws.SweepClosesBy | app/Console/Commands/SystemMonitor.php:79-91 | a row a sweep closes is stale, and is completed if somebody holds it and gone otherwise |
| SweepLaws.SweepHalvesStale | app/Console/Commands/SystemMonitor.php:76-92 | each sweep closes at least half of the stale items, strictly reduces them while any exist, and leaves exactly the stale ones among the rows it skips |
| SweepLaws.SweepClearsExactlyWhen | app/Console/Commands/SystemMonitor.php:76-92 | one sweep is enough if and only if for every stale row past the first hundred the rows that stay before it, counted in hundreds, are more than those that stay before the row a hundred places earlier; so always when the selection fits one page |
| SweepLaws.AllStaleLeavesTheSecondPage | app/Console/Commands/SystemMonitor.php:76-92 | of 101 to 200 pending rows that are all stale, exactly those past the first page survive a sweep |
| SweepLaws.SweepsConverge | app/Console/Commands/SystemMonitor.php:49-93 | while the same clients lack SecOps, n sweeps leave none once two to the n exceeds the stale items |

## Left out

- Concurrency: one service call, job or page read is one atomic step; interleavings inside a call and the transactions that guard against them are not modelled.
- User steps on servers and action items: archiving, uninstalling, detaching, soft-deleting and assigning items. No event of a run from empty tables decommissions a server (`HeardLaws.AllInService`); the laws of monitoring runs start from any world, so they cover what such steps leave behind.
- DetectionLaws.NoneOnlineAfterSilence: does not cover a threshold setting that changes during the run: a check keeps the due second of the setting it was scheduled under.
- DetectionLaws.CheckAlarmsEarlyExactlyWhen: measures from the stamped second of the last heartbeat, because the statement with exact instants is false; `DetectionLaws.EarlyAlarmExactlyWhen` says when.
- Heartbeat.ProcessAgent: states what a heartbeat does to servers, agents, activities, items and checks; ports are in `Inventory`, commands in `Commands`, metrics are not modelled.
- PaginatorLaws.PageAnswerIs: page numbers and sizes are unbounded integers; the database's own limits are not modelled.
- Fleet.Run: raw tokens are assumed fresh; random generation is not modelled.
- Sessions.SessionManager.ValidateAndRotate: hashing is assumed injective and constant-time comparison is equality; audit log entries are not modelled.
- Provisioning.ForceReinstallToken: does not model which installation id it suggests to the installer.
- Provisioning.Bootstrap: models the token check alone, not the installation record it writes.
- Heartbeat.Process: a non-uuid text in place of a uuid is simply unknown here; the database would reject the cast. Uuids are compared as written, without case folding.
- Paginator.Paginate: key columns hold integers, the page parameter is an integer or not a number, and base64 and JSON decoding is abstracted to a decoded list or garbage. Exactly two cursor columns, as cursors always encode two values.
- Inventory.PortInventory.UpdatePorts: the text key of a port is its protocol and number; a numeric key is one made of digits. Processes share the union (without the port fallback); service and process rows are not modelled.
- Monitor.ShowStatus: `record_status`, soft deletion and a missing `registered_at` are not modelled; the lock is a cache entry with a whole-second end.
- Commands.CommandQueue.ProcessCompletedCommands: result rows and activity texts are not modelled.
- Uptime.CalcUptime: `uptime_seconds` is copied from the server and not modelled; dates are instants, not texts.
- The NodeConfig engine and its alert evaluation, lifecycle events, port pings, metrics and telemetry, broadcasting, mail and reports as documents: not needed by the properties above, and mostly I/O.
- Access tokens, challenge signatures and the rest of agent authentication: a heartbeat authenticates when its agent is active.
