# Verified model of the VPN stack's control logic

The repository installs and runs a VPN on one or two servers. This project models the parts of it
whose guarantees only show over whole runs, and proves those guarantees:

* **Client publication** (`ClientPublication.dfy`): the journalled pointer switch that publishes
  client generations. The disk is an abstract state; an exception or a kill can strike between any
  two atomic steps, recovery included.
* **Interserver failover** (`TransportPolicy.dfy`, `PolicyRuns.dfy`, `Activation.dfy`,
  `Reconcile.dfy`): the failover policy and what it guarantees over runs, the selector transaction
  against an adversarial controller, and the reconcile loop with its switch backoff. The loop is
  proved to run the policy, and the evidence, failback and anti-flap theorems are stated for the
  loop as well.
* **Routing** (`RouteSemantics.dfy`, `RoutingPolicy.dfy`, `GatewayPolicies.dfy`,
  `GatewayMeaning.dfy`, `OperatorRules.dfy`): a first-match semantics of rule lists, in which `resolve` is not final and
  acts on names only; the policy compiler, both gateway policies, and the insertion of operator
  rules, each compared with what its source means: for both gateways the verdict on every packet.
* **Operator rules on disk** (`RuleNormalization.dfy`, `RuleCommit.dfy`): normal forms, the
  all-or-nothing commit of three files, and editors that work at the same time.
* **Health and recovery** (`HealthRecovery.dfy`), **host preparation** (`HostPlatform.dfy`).
* **Journal evidence** (`JournalEvidence.dfy`, `ProblemWindows.dfy`): the walk over journal files,
  and chunked history whose complete windows count every record exactly once.
* **Codecs and arithmetic** (`CurveFormulas.dfy`, `X25519.dfy`, `DnsProbe.dfy`, `ResPq.dfy`, `ReleaseFraming.dfy`,
  `EnvText.dfy`), over `Octets.dfy` and `Text.dfy`.

Times are whole microseconds or seconds. Clocks, random identifiers, probe results, command
results, and the instants at which faults strike are inputs, so every theorem holds for all of
them. A digest is modelled by the content it is taken of.

`dafny verify dfyconfig.toml` checks the whole project.

## Where the code does less than it seems to

* A migration that fails without a fault gives the old client directory back unchanged exactly
  unless it created a lock file and then found a different stable route state; then that file is
  added and nothing else changes (`FailedMigration`). Under faults a directory that cannot gain the
  lock file is never altered (`LockedLegacyIsExact`).
* A controller reply that is cut short raises an exception that the selector switch does not
  handle. Such an activation may have moved the selector, is not rolled back (`OldPathAsked`),
  opens no backoff window and loses the retry clock (`LostOpensNoWindow`), so the running loop can
  be back on its way to the preferred path within seconds (`LoopFlapsAfterEscape`). Without such
  an exception the loop keeps its anti-flap minute (`LoopAntiFlap`).
* Republishing the same payloads is a no-op exactly when the list of stale names avoids the
  payload names and the manifest (`RepublishIsNoop`).
* The policy function forgets the retry clock in a cycle whose selected path is not probed
  (`UnprobedCycleForgetsClock`, `FlapsWhenUnprobed`). Only a direct caller can produce such a
  cycle: the loop tags every probe, and its collector always probes the selected path.
* On the single gateway, operator rules go in front of the port-53 control rule and can change the
  fate of packets no operator rule is about (`SingleBaseChanges`, an exact condition).
* Runtime target validation does not look at control rules (`ControlTargetsUnchecked`): a validated
  policy compiles without dangling targets exactly when its control rules have none
  (`ControlTargetsDecide`). Guards protect only classes whose fallback blocks
  (`UnblockedClassLeaks`).
* Re-applying rules without an expected generation overwrites what was stored meanwhile
  (`UnguardedApplyOverwrites`).
* The recovery cooldown relies on services having units of their own (`PlannedDistinct`,
  `SharedUnitDefeatsCooldown`) and on unit names without a semicolon (`ReceiptReadBack`).
* A log window of length zero is reported complete even if the newest query failed
  (`ZeroWindowOverlooksFailure`).
* The server reads env values without unescaping them (`RenderText`, an exact condition).
* A SELinux command that takes effect and still reports a failure is not compensated
  (`CleanUnlessStuck`).

## Model

| member | source | states |
|---|---|---|
| ClientPublication.Publisher.PublishLocked | vpn_installer/client_publication.py:377-450 | Under every fault schedule the disk stays recoverable, no generation changes, legacy bytes and the adopted route state survive, storage stays bounded, and a client that moved shows, name by name, what was asked for over what readers saw before; success leaves exactly the published disk, without faults success is equivalent to admissibility, and the three recovery errors are unreachable |
| ClientPublication.Publisher.RecoverLocked | vpn_installer/client_publication.py:244-270 | From every sound disk, recovery without faults ends without an error, with the journal gone and the client settled to its old value or a complete generation; interrupted recovery stays sound; it never adds a generation and never selects one that was not selected before |
| ClientPublication.Publisher.Finish | vpn_installer/client_publication.py:237-241 | Finishing changes only the layout note and the journal, never clears the journal before the note is written, and succeeds without faults |
| ClientPublication.Publisher.Stage | vpn_installer/client_publication.py:413-430 | Staging touches nothing but the new directory; without faults it succeeds exactly when names, sizes and operator files are acceptable, and then holds the payloads, the kept operator files and their manifest |
| ClientPublication.Publisher.CopyOperator | vpn_installer/client_publication.py:298-322 | The copy holds exactly the entries that are not excluded, in order, and consumes exactly their size from the shared budget |
| ClientPublication.Publisher.Switch | vpn_installer/client_publication.py:432-450 | Every crash point of the legacy rename, route adoption, pointer replacement and finish is a sound evolution of the origin whose client is the old one or the journalled target; success leaves exactly the activated disk |
| ClientPublication.Publisher.AdoptRouteState | vpn_installer/client_publication.py:325-354 | Without faults the route state is adopted exactly when it is safe and free of conflict; the moved directory gains at most the lock file |
| ClientPublication.Publisher.PublishNew | vpn_installer/client_publication.py:413-450 | Stage, journal and switch, with recovery when the switch raises: every outcome is a sound evolution, adds at most the named generation, and shows the old client or exactly the staged generation; success leaves exactly the new disk, and no recovery error is reachable |
| ClientPublication.Publisher.Examine | vpn_installer/client_publication.py:390-412 | On a settled disk the checks before staging report the published generation exactly when the payloads are already shown, and otherwise pass exactly when there is room for one more |
| ClientPublication.Publisher.Rollback | vpn_installer/client_publication.py:453-468 | Rolling back publishes again the artifacts of an old complete generation; whenever the pointer moved, crashes included, it shows those artifacts, and only the instructions may differ |
| ClientPublication.Publisher.ReadPayloads | vpn_installer/client_publication.py:463-464 | The payloads read from a complete generation have the digests of its manifest, one per artifact |
| ClientPublication.HistoryEvolves | vpn_installer/client_publication.py:244-295 | Between any two points of any history of sessions with crashes, generations are immutable, storage is bounded, legacy bytes survive, an adopted route state is never replaced, and the client is the old one or a newer complete generation |
| ClientPublication.SelectionHasSession | vpn_installer/client_publication.py:377-450 | A generation that the client shows and did not show earlier was staged by one publication in between, under its identifier: it shows that publication's payloads, and under every other name that is neither stale nor reserved what readers saw at its beginning |
| ClientPublication.StagedShows | vpn_installer/client_publication.py:403-430 | A staged generation holds under every name what was asked for, or else the entry readers saw before unless the name is stale or reserved, and its manifest records exactly what was asked for |
| ClientPublication.AdmissibleExactly | vpn_installer/client_publication.py:390-450 | Exactly when a publication that has something to do goes through without faults: free retention slot and identifier, plain names and visible texts, copyable operator files, 32 MiB in all, and a migratable legacy directory |
| ClientPublication.AlreadyExactly | vpn_installer/client_publication.py:392-398 | A publication has nothing to do exactly when the generation shown records what is asked for, rendered for its own path, and holds nothing stale |
| ClientPublication.MigrationKeeps | vpn_installer/client_publication.py:325-354 | A migration keeps the legacy directory under its identifier with at most the lock file added, leaves other backups alone, and takes the route state over if it is a file |
| ClientPublication.EvolvesTransitive | vpn_installer/client_publication.py:377-450 | The guarantees of single sessions compose over sessions |
| ClientPublication.ReadersAgreeWithRecovery | vpn_installer/client_publication.py:273-295 | A reader before recovery gets exactly what recovery will settle on |
| ClientPublication.ReadersAlwaysServed | vpn_installer/client_publication.py:273-295 | Once something was published, every later reader gets complete content, crash or not: the old one, the old directory with at most its lock file, or exactly the generation that a publication in between staged |
| ClientPublication.PinnedForever | vpn_installer/client_publication.py:401-430 | A generation keeps its bytes in every later state, and storage never exceeds 32 entries |
| ClientPublication.RepublishIsNoop | vpn_installer/client_publication.py:392-398 | Publishing the same payloads again changes nothing exactly when the stale list names no payload and not the manifest |
| ClientPublication.RepublishedArtifacts | vpn_installer/client_publication.py:453-468 | Publishing the payloads of a generation selects one with the same artifacts and digests |
| ClientPublication.StagedComplete | vpn_installer/client_publication.py:174-189 | A generation staged from writable payloads passes the validation of readers and recovery exactly when there is a payload |
| ClientPublication.StagedArtifacts | vpn_installer/client_publication.py:453-468 | What a rollback stages, even if it is interrupted, has the artifacts and digests of the chosen generation |
| ClientPublication.Publisher.FailedMigration | vpn_installer/client_publication.py:325-450 | A failing publication over a legacy directory, without faults, gives the directory back unchanged exactly unless the lock file was created before a conflicting stable route state was found; then only that file is added |
| ClientPublication.LockedLegacyIsExact | vpn_installer/client_publication.py:325-374 | Under every fault schedule a legacy directory that cannot gain the lock file is never altered while it stays the client |
| PolicyRuns.FailoverNeedsEvidence | vpn_installer/interserver_transport.py:1087-1141 | Every hard-failure recommendation rests on two distinct cycles at increasing times in which the selected path failed for one reason and two in which the other was healthy, no gap above ten seconds |
| PolicyRuns.PromptFailover | vpn_installer/interserver_transport.py:1087-1141 | Conversely, two such cycles in a row are enough, when cycle identifiers name one observation each |
| PolicyRuns.PromptHardFailure | vpn_installer/interserver_transport.py:1087-1141 | Two successive failing cycles for one reason are a hard failure, whether or not the other path works |
| PolicyRuns.FailingCycle | vpn_installer/interserver_transport.py:1087-1141 | A failing cycle renews the failure evidence whatever the other path does; status and recommendation follow from the confirmations on both sides |
| PolicyRuns.OtherStatesForgotten | vpn_installer/interserver_transport.py:1076-1080 | Of a state about another path, or a failed path that was to be left, only the retry clock counts |
| PolicyRuns.FailureTrail | vpn_installer/interserver_transport.py:883-931 | The stored failure evidence describes one unbroken stretch of failures and claims no more confirmations than it shows |
| PolicyRuns.AlternateTrail | vpn_installer/interserver_transport.py:1107-1117 | The stored evidence about the other path describes one unbroken stretch of healthy probes |
| PolicyRuns.ExtendBacked | vpn_installer/interserver_transport.py:901-931 | One more sample adds exactly one confirmation for an unseen cycle later than the state and the evidence, and none otherwise; a replayed cycle adds none |
| PolicyRuns.FreshBacked | vpn_installer/interserver_transport.py:901-931 | Evidence that starts anew claims exactly its one sample |
| PolicyRuns.VoluntaryFailback | vpn_installer/interserver_transport.py:1199-1307 | A healthy fallback is left only after an unbroken stretch of 300 s, probes at most 90 s apart and all good, three distinct cycles; started_at is the stretch's true start |
| PolicyRuns.FailbackHappens | vpn_installer/interserver_transport.py:1199-1307 | The converse: such a stretch of 300 s whose preferred samples are at most 90 s apart, at three times or more with fresh identifiers, makes the policy recommend the preferred path, whatever retry clock is stored |
| PolicyRuns.DegradedNeedsSamples | vpn_installer/interserver_transport.py:934-977 | A path that answers is left for its quality only after two samples 15 to 45 s apart that found it degraded for one reason throughout and the other path sound, and the fallback only once the retry clock allows it |
| PolicyRuns.DegradedHappens | vpn_installer/interserver_transport.py:934-977 | The converse: two such samples 15 to 30 s apart are enough |
| PolicyRuns.RecoveryTrail | vpn_installer/interserver_transport.py:1199-1307 | The recovery evidence of every cycle describes one uninterrupted stretch on the healthy fallback |
| PolicyRuns.AntiFlap | vpn_installer/interserver_transport.py:1118-1129 | After a recommendation to leave the preferred path whose evaluation is stored, no return is recommended for a minute unless the fallback has a confirmed hard failure; only the cycles between the two need to be probed |
| PolicyRuns.RetryHeld | vpn_installer/interserver_transport.py:980-1030 | The retry clock set on leaving the preferred path is kept, with its minute, in every state of the following half hour, through probed cycles, failed and maintenance observations, and lost evaluations |
| PolicyRuns.RetryDelayBounds | vpn_installer/interserver_transport.py:989-1007 | Every retry delay is within 60 and 300 s, doubles from one minute, and the exponent cap never matters |
| PolicyRuns.ClockRenewed | vpn_installer/interserver_transport.py:989-1007 | Leaving the preferred path, or finding it bad from a working fallback, renews the clock: one more attempt than before unless half an hour of stability lies between, and min(300, 60 * 2^(n-1)) s to wait |
| PolicyRuns.ReturnDates | vpn_installer/interserver_transport.py:1156-1186 | Asking for the preferred path again keeps the clock with its count and dates the recovery |
| PolicyRuns.StabilityResets | vpn_installer/interserver_transport.py:1010-1030 | A clock that ran when the preferred path became healthy is dated to that cycle, kept for half an hour of stable operation, and then forgotten |
| PolicyRuns.UnprobedCycleForgetsClock | vpn_installer/interserver_transport.py:1085-1086 | The policy called without a probe of the selected path drops the retry clock |
| PolicyRuns.FlapsWhenUnprobed | vpn_installer/interserver_transport.py:1085-1086 | A concrete run of direct calls with such a cycle leaves at 2 s and comes back at 26 s |
| Activation.Transaction.Select | vpn_installer/server_transport.py:323-425 | Success means the last look found the requested path with a proof just passed on it; a claimed rollback means the same of the old path; an undisturbed switch succeeds; a failed switch of which every exchange came back asked for the old path; an escaping exchange ends the call in the state described by Abandoned |
| Activation.OldPathAsked | vpn_installer/server_transport.py:403-425 | A switch that did not succeed asked for the old path again exactly when no exchange of its forward part escaped the handlers |
| Activation.Transaction.Attempt | vpn_installer/server_transport.py:403-406 | The forward part moves the selector when needed and proves the path, fails with something that went against it, or is cut off by its last exchange |
| Activation.Transaction.Restore | vpn_installer/server_transport.py:409-416 | The compensation asks for the old path and reports it verified only with a passed proof; an exchange may escape it |
| Activation.Transaction.Prove | vpn_installer/server_transport.py:365-395 | The proof note's probe names the path seen right after the proof and reports the last round exactly if that is the proved path |
| Activation.Transaction.SetSelector | vpn_installer/server_transport.py:349-363 | A PUT may apply without an acknowledgement; the call succeeds only if a later look shows the value; a cut-short reply escapes it |
| Activation.ProveOverlay | vpn_installer/server_transport.py:244-288 | The proof passes exactly when its last round succeeds in time, stops at the first such round, and takes at most five |
| Activation.HeldAfterProof | vpn_installer/server_transport.py:365-395 | A passed proof followed by a look at the same path is a proof that held |
| Reconcile.Watcher.Reconcile | vpn_installer/server_transport.py:526-687 | One turn stores exactly the decided and finished state; an activation asks for the alternative path and keeps the transaction's guarantees, and a success or verified rollback leaves a positive overlay probe of the path it proved; when an exchange escapes, the watcher stores a failed observation instead |
| Reconcile.Watcher.Miss | vpn_installer/server_transport.py:487-507 | Failed and maintenance observations store a state that keeps the backoff and its history |
| Reconcile.OverlayNamesSelected | vpn_installer/server_transport.py:651-673 | In every life of the watcher a positive overlay probe belongs to the path its state names as selected |
| Reconcile.WindowLength | vpn_installer/server_transport.py:443-462 | The n-th window is exactly min(300, 30 * 2^(n-1)) s long |
| Reconcile.FailureRemembered | vpn_installer/server_transport.py:428-507 | In every life whose clock does not run backwards, the last refusal of a series stays active to the end of its window and counted for half an hour, through failed and maintenance observations and lost turns |
| Reconcile.ActivatesExactly | vpn_installer/server_transport.py:581-637 | The loop activates exactly when the policy run asks for a switch and the alternative path is not in the window of its last refusal, or the selected path is dead: hard-failure evidence and a failed overlay probe |
| Reconcile.FinishSays | vpn_installer/server_transport.py:606-675 | What a finished activation stores about the path for each outcome: status, selected and recommended path, and evidence that starts anew |
| Reconcile.LostOpensNoWindow | vpn_installer/server_transport.py:606-687 | A refused activation opens the next window at once; a lost one opens none and leaves the recorded failures and the retry clock as they were |
| Reconcile.LoopRunsPolicy | vpn_installer/server_transport.py:526-675 | The policy part of the state file evolves as a run of the policy with its result fed back |
| Reconcile.LoopFollowsPolicy | vpn_installer/server_transport.py:581-637 | Every activation is a recommendation of that run |
| Reconcile.LoopFailsBackLate | vpn_installer/server_transport.py:526-675 | The loop returns from a healthy fallback only after five uninterrupted minutes |
| Reconcile.LoopFailsBack | vpn_installer/server_transport.py:526-637 | The loop does fail back after five minutes of recovery, unless the preferred path refused an activation and its window is open |
| Reconcile.LoopFailsOver | vpn_installer/server_transport.py:526-637 | The loop does fail over after two successive failing looks with a working alternative, outside a window or inside it with a dead overlay |
| Reconcile.LoopLeavesDegraded | vpn_installer/server_transport.py:526-637 | The loop does leave a degraded path after two quality samples, outside a window, and from the fallback when the retry clock allows it |
| Reconcile.LoopFailoverNeedsEvidence | vpn_installer/server_transport.py:581-637 | Every hard-failure activation of the loop rests on two distinct failing cycles of the selected path and two healthy ones of the other |
| Reconcile.LoopAntiFlap | vpn_installer/server_transport.py:526-675 | After an activation away from the preferred path that is not lost, the loop does not activate the preferred path within a minute unless the fallback failed hard |
| Reconcile.LoopFlapsAfterEscape | vpn_installer/server_transport.py:678-687 | A concrete life that probes in every turn: the activation at 2 s escapes after its PUT applied, and the preferred path is activated again at 20 s |
| RouteSemantics.EvaluateConcat | vpn_installer/routing_policy.py:125-139 | First-match reading of a concatenation, with the addresses resolved so far carried over |
| RouteSemantics.GuardsDecide | vpn_installer/routing_policy.py:199-200 | A list of reject rules refuses exactly what one of them matches |
| RoutingPolicy.BindRuleTarget | vpn_installer/routing_policy.py:87-106 | The loop stops at the first rule that cannot be bound and otherwise fills in the target everywhere |
| RoutingPolicy.BindNamesTarget | vpn_installer/routing_policy.py:87-106 | Every bound rule of the action names the target and is otherwise unchanged |
| RoutingPolicy.BindExactly | vpn_installer/routing_policy.py:87-106 | Rules can be bound exactly when every rule of the action names the target or none, and the target is a real one |
| RoutingPolicy.CompileRouteRules | vpn_installer/routing_policy.py:125-139 | The compiled list is control rules, resolve-only rules, then resolve, guards and route per pair, then terminals; unequal pairs are an error |
| RoutingPolicy.GuardDomination | vpn_installer/routing_policy.py:125-139 | With blocking fallbacks no traffic rule sends a packet whose literal or resolved address a guard matches, and none falls through to the final outbound |
| RoutingPolicy.UnblockedClassLeaks | vpn_installer/routing_policy.py:125-139 | Without a blocking fallback a guarded address is sent out |
| RoutingPolicy.NoDanglingTargets | vpn_installer/routing_policy.py:141-159 | After validation no traffic rule names a missing outbound or resolver |
| RoutingPolicy.ControlTargetsUnchecked | vpn_installer/routing_policy.py:141-159 | Validation passes a policy whose control rule names a missing outbound |
| RoutingPolicy.ControlTargetsDecide | vpn_installer/routing_policy.py:141-159 | After validation the compiled rules name no missing target exactly when the control rules name none |
| RoutingPolicy.TargetsExactly | vpn_installer/routing_policy.py:141-159 | Validation passes exactly when the final outbound and every resolver and outbound of a class exist |
| RoutingPolicy.TrafficClassBinds | vpn_installer/routing_policy.py:172-196 | A built class has all its rules bound to its own outbound and resolver |
| GatewayPolicies.DualBuilds | vpn_installer/routing_policy.py:203-326 | Every dual environment compiles to a policy with paired, blocking classes |
| GatewayPolicies.SingleBuilds | vpn_installer/routing_policy.py:329-394 | Every single-gateway environment compiles likewise |
| GatewayPolicies.GatewayGuardHit | vpn_installer/routing_policy.py:203-326 | The guards match exactly the blocked ranges and the private addresses |
| GatewayPolicies.DualGuardDomination | vpn_installer/routing_policy.py:203-326 | For every dual environment only the port-53 control rule sends a packet with a private or blocked address |
| GatewayPolicies.GatewayTargetsExist | vpn_installer/routing_policy.py:141-159 | A validated gateway policy has no dangling target at all, control rules included |
| GatewayMeaning.DualMeans | vpn_installer/routing_policy.py:203-326 | For every dual environment and every packet the compiled policy gives exactly the verdict read off the lists: foreign names to the foreign gateway, forced and geosite names direct, other names foreign, each after a look at the addresses its own resolver finds; then direct ranges, the own address and geoip direct, and the rest of the literals foreign |
| GatewayMeaning.SingleMeans | vpn_installer/routing_policy.py:329-394 | For every single-gateway environment and every packet the compiled policy gives exactly the verdict of the one local egress |
| OperatorRules.RouteInsertIndex | vpn_installer/admin_apply.py:188-197 | The index is one past the last rule of the router, with route options, or for port 53 to the foreign gateway |
| OperatorRules.CollectGuards | vpn_installer/admin_apply.py:269-274 | The collected guards are the address-reject rules of the base, each once |
| OperatorRules.ApplyAdminRules | vpn_installer/admin_apply.py:260-303 | The loops compute the spliced list, or fail at the first rule without an outbound |
| OperatorRules.InsertsMeanRules | vpn_installer/admin_apply.py:275-296 | The inserted list decides as the operator rules mean: guards first, then the first enabled rule of the list that is about the packet, after the guards have seen its own resolution |
| OperatorRules.ApplyMeans | vpn_installer/admin_apply.py:260-303 | The effective list is the leading rules, then that meaning, then the rest of the base |
| OperatorRules.UnconcernedPackets | vpn_installer/admin_apply.py:260-303 | Exactly when a packet that no enabled operator rule is about keeps its decision |
| OperatorRules.DualBaseKept | vpn_installer/admin_apply.py:260-303 | On the dual base such a packet always keeps it |
| OperatorRules.SingleBaseChanges | vpn_installer/admin_apply.py:188-197 | On the single base it changes exactly for public port-53 packets to a guarded literal address |
| OperatorRules.GatewayPoliciesDepend | vpn_installer/routing_policy.py:203-394 | Both builders return policies to which the two results above apply |
| RuleNormalization.NormalizeRuleIdempotent | vpn_installer/admin_apply.py:109-144 | A normalized rule is its own normal form, whatever identifier is offered |
| RuleNormalization.AcceptedSettles | vpn_installer/admin_apply.py:109-144 | What an accepted rule satisfies: trimmed non-empty parts, a known outbound, a global network or a domain name, no conflict while enabled |
| RuleNormalization.AcceptedSays | vpn_installer/admin_apply.py:109-144 | An accepted rule says what was submitted: trimmed outbound, identifier and conflict, the enabled flag, and the network or the name |
| RuleNormalization.AcceptedExactly | vpn_installer/admin_apply.py:109-144 | Exactly which rules are accepted |
| RuleNormalization.DomainSpelled | vpn_installer/admin_apply.py:95-106 | A name is accepted exactly when it is a domain name behind an optional wildcard prefix and before dots, blanks and case apart; a prefix asks for subdomains |
| RuleNormalization.DomainFixed | vpn_installer/admin_apply.py:95-106 | A domain name in normal form comes back unchanged and asks for no subdomains |
| RuleCommit.CollectRules | vpn_installer/admin_apply.py:164-180 | The loop with its two sets of seen keys and identifiers computes the list form or its first error |
| RuleCommit.NormalizedProvenance | vpn_installer/admin_apply.py:164-180 | The kept rules are, in order, the first item of every key, and no key is lost |
| RuleCommit.NormalizedIsListed | vpn_installer/admin_apply.py:164-180 | Accepted lists are in normal form, without repeated keys or identifiers |
| RuleCommit.ListAccepted | vpn_installer/admin_apply.py:164-180 | A submitted list is accepted exactly when every item has a normal form and the first items of two keys never share an identifier |
| RuleCommit.StoredAccepted | vpn_installer/admin_apply.py:147-161 | A stored list loads exactly when every object in it has a normal form, and keeps every key |
| RuleCommit.ListedIsFixed | vpn_installer/admin_apply.py:147-185 | Both readers return a list in normal form unchanged, so its generation is stable |
| RuleCommit.ReconcileKeeps | vpn_installer/admin_apply.py:237-257 | Reconciling keeps every rule, key and identifier, disables exactly the rules without an installed outbound, and fails exactly when one may not be migrated |
| RuleCommit.RuleStore.Commit | vpn_installer/admin_apply.py:341-408 | Refused exactly when a check fails; refused or rolled back leaves all three files as they were; a single fault is always rolled back; success installs the list, the configuration rendered from the base and that list, and a manifest of both that counts the conflicts; after two faults each file is old or new |
| RuleCommit.RuleStore.Restore | vpn_installer/admin_apply.py:387-405 | Restoring writes that succeed bring back all three files |
| RuleCommit.CommittedMeans | vpn_installer/admin_apply.py:373-387 | After success every later reader loads the committed list, the three files are the installed ones of that list, enabled rules name installed outbounds, and a guarded commit replaced the list its editor saw |
| RuleCommit.CommitAccepted | vpn_installer/admin_apply.py:355-372 | Exactly when a commit goes ahead: normal forms, identifiers, outbounds, the editor's generation, and a configuration that passes its check |
| RuleCommit.NoLostEdit | vpn_installer/admin_apply.py:364-368 | Under every interleaving of guarded editors the stored list is what the successful edits give one after another |
| RuleCommit.GuardHolds | vpn_installer/admin_apply.py:364-368 | A guarded edit that succeeds was made to the list stored at that moment |
| RuleCommit.UnguardedApplyOverwrites | vpn_installer/admin_apply.py:411-430 | An unguarded re-application restores the list it loaded, and agrees with applying to the stored list exactly under the given condition |
| HealthRecovery.HealthMonitor.Run | vpn_installer/server_lifecycle.py:259-421 | One cycle stores, records and starts exactly what the specification of a cycle says; maintenance changes nothing |
| HealthRecovery.HealthMonitor.Recover | vpn_installer/server_lifecycle.py:622-656 | The action loop records every result before the next action starts |
| HealthRecovery.RecoveryNeedsConfirmation | vpn_installer/server_lifecycle.py:295-411 | In every run actions start only after an unbroken streak of stored records with the same server-path failure and evidence, each at most 300 s after the one before |
| HealthRecovery.StartsExactly | vpn_installer/server_lifecycle.py:295-411 | A cycle starts actions exactly when a failure of the server path alone repeats the stored one and some planned action last succeeded 900 s ago or earlier; it starts such actions only, and all of them when every receipt can be stored |
| HealthRecovery.RecordExactly | vpn_installer/server_lifecycle.py:308-404 | What a cycle without recovery stores: the count goes on exactly with a repeated failure, and the state follows from it |
| HealthRecovery.CountIsStreak | vpn_installer/server_lifecycle.py:295-307 | The stored count is the length of such a streak |
| HealthRecovery.ResetNeedsPostCheck | vpn_installer/server_lifecycle.py:454-487 | A recovering cycle resets the failure count only after a fresh check that found the server path and the host verified |
| HealthRecovery.ResetExactly | vpn_installer/server_lifecycle.py:412-487 | A recovering cycle without write faults resets the count exactly when some action worked and a fresh check verified the server path and the host; its state and soft mark follow |
| HealthRecovery.EpochsExactly | vpn_installer/server_lifecycle.py:424-451 | Every action that worked is dated to its completion, and no other epoch changes |
| HealthRecovery.RecordedSuccessesSpaced | vpn_installer/server_lifecycle.py:405-451 | In every run of regular cycles two recorded successes of one action are at least 900 s apart |
| HealthRecovery.FailedReceiptStops | vpn_installer/server_lifecycle.py:424-451 | A receipt that cannot be stored stops every later action of its cycle |
| HealthRecovery.AllAttempted | vpn_installer/server_lifecycle.py:622-656 | Without such a failure every eligible action is started, in order |
| HealthRecovery.ReceiptReadBack | vpn_installer/server_lifecycle.py:560-566 | A result is read back as the success of its own action exactly when its status says so and the action has no semicolon |
| HealthRecovery.PlannedDistinct | vpn_installer/server_lifecycle.py:569-619 | A plan repeats an action exactly when two services that need a restart share a unit |
| HealthRecovery.PlanExactly | vpn_installer/server_lifecycle.py:569-619 | What is planned, read off the host: exactly the required, present, inactive services in order, or else the one action of the first problem |
| HealthRecovery.SharedUnitDefeatsCooldown | vpn_installer/server_lifecycle.py:405-451 | An action eligible twice in one cycle whose two runs succeed within 900 s leaves recorded successes that are not spaced |
| HealthRecovery.EligibleRepeats | vpn_installer/server_lifecycle.py:405-409 | The eligible actions of a cycle repeat exactly when the plan repeats an action that has cooled down |
| HostPlatform.HostPolicy.Prepare | vpn_installer/platforms.py:475-545 | A conflict is refused before any command runs; success adds exactly the missing entries; a preparation fails only after a fault and is left incomplete only after two; a complete compensation restores the policy up to a stuck command |
| HostPlatform.HostPolicy.Compensate | vpn_installer/platforms.py:536-545 | Removal in reverse order takes back every applied entry and goes on after a failed removal |
| HostPlatform.PreparedMeans | vpn_installer/platforms.py:487-530 | After preparation every wished entry has its context, and no other entry changed |
| HostPlatform.CompensationRestores | vpn_installer/platforms.py:525-545 | Undoing the applied additions gives back the old entries |
| HostPlatform.CleanUnlessStuck | vpn_installer/platforms.py:525-545 | The compensation is exact exactly when no addition took effect while it reported a failure |
| JournalEvidence.RetainedRange | vpn_installer/journal_evidence.py:83-126 | The walk terminates and returns the start of a gapless chain that ends in the unique current file and that no unique predecessor extends; otherwise the right error |
| JournalEvidence.ChainIsMaximal | vpn_installer/journal_evidence.py:105-126 | The chain ends in the only current file, and at its start no file alone ends right before it in time |
| JournalEvidence.HeaderUsed | vpn_installer/journal_evidence.py:83-104 | Exactly which headers are used, passed over, or make the inventory incomplete |
| JournalEvidence.ChainCovers | vpn_installer/journal_evidence.py:117-126 | Every number from the start to the current tail lies in exactly one chained file, and times never run backwards |
| JournalEvidence.RangeIgnoresOrder | vpn_installer/journal_evidence.py:83-126 | The result does not depend on the order in which the headers are listed |
| JournalEvidence.FilesValid | vpn_installer/journal_evidence.py:88-112 | Every used file has dense positive numbers and ordered times, and one bad header fails the inventory |
| ProblemWindows.Include | vpn_installer/server_agent.py:608-619 | A segment's records are appended in order until one does not fit; nothing exceeds the byte and event bounds |
| ProblemWindows.Collect | vpn_installer/server_agent.py:600-649 | The segments tile the collected time without overlap, chunks are an hour long or reach the target in whole minutes, a segment failed exactly if its query did or not all records fitted, collection gives up only for a failed chunk, time or memory, and the loop terminates |
| ProblemWindows.OneOwner | vpn_installer/server_agent.py:608-620 | Every instant between the collected start and now belongs to exactly one segment |
| ProblemWindows.RetainedOnce | vpn_installer/server_agent.py:608-650 | No record is retained from two queries |
| ProblemWindows.CompleteWindowIsExact | vpn_installer/server_agent.py:683-700 | A window without coverage error overlaps no failed segment and retains every journal record exactly as often as the journal has it |
| ProblemWindows.CompleteExactly | vpn_installer/server_agent.py:683-700 | Exactly when a window is reported complete: collected in full, no failed segment behind its begin, and retention and loss evidence over all of it |
| ProblemWindows.TargetMeans | vpn_installer/server_agent.py:587-633 | How far back a full collection reaches: a day, to a release of the last 14 days, and never before the retained begin |
| ProblemWindows.ZeroWindowOverlooksFailure | vpn_installer/server_agent.py:690-692 | A window of length zero can be reported complete although the newest query failed |
| ProblemWindows.AddContext | vpn_installer/server_agent.py:664-672 | Context lines are added within the same bounds and in order |
| X25519.PublicFromPrivate | vpn_installer/interserver_transport.py:489-516 | The swap-bit loop computes the plain branching ladder for every key, and refuses other lengths |
| CurveFormulas.AddSymmetric | vpn_installer/interserver_transport.py:504-509 | Differential addition modulo the prime does not depend on the order of its points |
| CurveFormulas.DoubleFormula | vpn_installer/interserver_transport.py:499-511 | Doubling is (x^2 - z^2)^2 over 4xz(x^2 + 486662xz + z^2) modulo the prime, the doubling of the Montgomery curve of section 4.1 of RFC 7748 |
| CurveFormulas.AddFormula | vpn_installer/interserver_transport.py:499-511 | Differential addition is 4(xu - zw)^2 over x1 times 4(uz - xw)^2 modulo the prime |
| X25519.LadderTracks | vpn_installer/interserver_transport.py:493-514 | After k bits the pair stands for n and n + 1 times the base point, n being the bits seen |
| X25519.PublicKeyMeans | vpn_installer/interserver_transport.py:489-516 | The key stands for the clamped scalar: its 32 bytes decode to a residue below the prime that is x times z to the power p - 2, and x over z wherever z to the power p - 1 is 1 |
| X25519.ModPowIsPower | vpn_installer/interserver_transport.py:508-515 | The modular power is congruent to the power by repeated multiplication |
| X25519.Clamp | vpn_installer/interserver_transport.py:479-486 | The in-place edit computes the clamped key |
| X25519.ClampedScalar | vpn_installer/interserver_transport.py:479-486 | A clamped scalar is a multiple of 8 in [2^254, 2^255), so the loop sees all its bits |
| X25519.ClampedBytes | vpn_installer/interserver_transport.py:479-486 | Clamping changes the low three bits of the first byte and the top two of the last, and nothing else |
| X25519.ClampingFirst | vpn_installer/interserver_transport.py:479-516 | Clamping the private key first does not change the public key |
| DnsProbe.CheckResponse | vpn_installer/interserver_transport.py:158-185 | The check with its answer loop computes the specified verdict and error |
| DnsProbe.SkipName | vpn_installer/interserver_transport.py:141-155 | The name loop terminates and finds the specified end or error |
| DnsProbe.NameIsSkipped | vpn_installer/interserver_transport.py:141-155 | Every encoded name, compressed or not, is skipped exactly |
| DnsProbe.SkippedIsName | vpn_installer/interserver_transport.py:141-155 | Whatever is skipped is an encoded name |
| DnsProbe.AcceptsGrammar | vpn_installer/interserver_transport.py:158-185 | A payload is accepted exactly when the grammar of section 4.1 of RFC 1035 describes it as an answer to the query with an IPv4 address among its announced answers |
| ResPq.ParsesGrammar | vpn_installer/application_probe.py:112-152 | A frame is accepted exactly when it is the canonical encoding of a valid reply, and the reply is read back |
| ResPq.PrefixStands | vpn_installer/application_probe.py:128-134 | Sizes are read exactly where their shortest prefix stands |
| ReleaseFraming.ReleaseTreeStream | vpn_installer/release_integrity.py:13-45 | Collecting, sorting and feeding frames computes the stream of the tree, and a link makes it unusable |
| ReleaseFraming.CoveredExactly | vpn_installer/release_integrity.py:13-26 | Exactly which files the stream covers, and when a link makes the tree unusable |
| ReleaseFraming.StreamInjective | vpn_installer/release_integrity.py:40-44 | Equal streams come from equal lists of paths and payloads |
| ReleaseFraming.StreamIsTree | vpn_installer/release_integrity.py:13-45 | Two trees have the same stream exactly when they hold the same files, however they are enumerated |
| ReleaseFraming.PathInjective | vpn_installer/release_integrity.py:39-40 | Different paths have different texts |
| EnvText.RenderText | vpn_installer/config.py:138-162 | The installer reads back exactly the rendered map, and the server does exactly when no value holds a backslash or a double quote |
| EnvText.QuotedReads | vpn_installer/common.py:105-122 | A quoted value is read back by the installer, and escaped by the server |
| EnvText.ParseEnvText | vpn_installer/config.py:114-122 | The line loop computes the map or the first malformed value |
| EnvText.ServerParseEnv | vpn_installer/server_runtime.py:160-175 | The server's line loop computes its map, later lines winning |
| EnvText.EntryExactly | vpn_installer/config.py:114-122 | Exactly which key and raw value a line speaks for |
| EnvText.LastLineWins | vpn_installer/config.py:114-122 | Both readers know exactly the keys some line speaks for, and the last such line decides |
| EnvText.PlainValues | vpn_installer/common.py:113-124 | Unquoted and plainly quoted values are read alike by both readers |
| EnvText.EscapeFixed | vpn_installer/common.py:105-106 | Escaping leaves exactly the values without a backslash or double quote alone |

## Left out

- The Windows branch of publication (junctions, NTFS checks, handles), fsync and power loss: foreign calls, and the code itself makes no claim about power loss.
- Links and files that other programs put into the client root, and journals written by others: the model starts from states the protocol can leave or from a fresh client.
- Stale names are single path components; names with inner slashes are not modelled.
- Transport probes are inputs: how an error text becomes a reason is not modelled, and neither are the cadences that decide when a probe is due.
- The exact fields of sing-box, Xray, WireGuard and nftables configurations: only matchers, actions and targets of route rules are kept; the DNS rules that operator rules insert are left out.
- The base configuration is taken to stay the same during one commit, and the program that validates a rendered configuration is an input.
- Blank-stripping and lower-casing follow the source on ASCII letters; other letters are not case-folded, so a name such as one with a Kelvin sign is refused by the model only.
- Interrupts that are not ordinary exceptions during a rule commit, and kills during a selector switch: the source does not compensate them.
- JSON text: files are modelled by their parsed content or as unreadable.
- Cache recovery of the public front, soft health reasons by kind, and the front's interval counters: inputs or plain sums.
- How a journal header's text is split into fields, and the rate-limiter query behind the loss evidence: the model starts from the parsed fields.
- Rounding of floating-point epochs: times are whole microseconds.
- The group law of Curve25519 and Fermat's little theorem: the formulas are shown to be the curve's doubling and differential addition polynomials, not to be addition on the curve.
- Python string literals other than those the renderer writes (further escapes, adjacent or triple-quoted literals): the model reports them as outside of it.
- The hash functions: a stream or a content stands for its digest.
- Classification of log lines: only which records are classified is modelled.
- Client route excludes, compatibility notes, credential stores and manifest literals: only easy members.
