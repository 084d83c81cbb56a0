# DMARC report analyser: verified model

A model of the parts of the analyser that hold real algorithms and state machines, with proofs of what they guarantee on
every input, in every reachable state and over every run. `dafny verify dfyconfig.toml` checks all of it.

| files | what they model |
|---|---|
| `Spf.dfy`, `SpfText.dfy`, `SpfGuarantees.dfy`, `SpfVerdict.dfy` | reading an SPF record, the walk through the include and redirect terms of it with its lookup limit, and the verdict (RFC 7208, sections 4.6.4, 5.2, 6.1) |
| `Der.dfy` | reading the length of an RSA key from DER (ITU-T X.690, section 8.1; RFC 8017, appendix A.1.1) |
| `DmarcRecord.dfy`, `DmarcRepair.dfy`, `DmarcGuarantees.dfy`, `DmarcSoundness.dfy`, `DmarcChecks.dfy` | parsing, checking and repairing a DMARC record (RFC 7489, sections 6.3 and 6.4) |
| `Notification.dfy`, `NotificationRuns.dfy`, `NotificationVerdicts.dfy`, `NotificationDispatch.dfy` | queued notifications: skipping, bundling per mailbox, sending, growing pauses between attempts |
| `Classification.dfy`, `SourceRules.dfy`, `ClassificationStore.dfy` | a person, a decision about a sender and the source rules writing the same fields of a source |
| `Alerts.dfy`, `AlertRules.dfy`, `AlertChecks.dfy`, `AlertRuns.dfy`, `AlertTargets.dfy`, `AlertBook.dfy` | raising alerts: deduplication, pause, rules that break on their own, notifications |
| `Retention.dfy`, `RetentionRuns.dfy`, `RetentionOrder.dfy`, `RetentionEnd.dfy`, `RetentionTotals.dfy`, `RetentionAges.dfy`, `RetentionLimit.dfy`, `RetentionStore.dfy` | removing old rows in batches over fourteen tables with foreign keys |
| `LoginGuard.dfy`, `LoginLocks.dfy` | the lock after too many failed logins |
| `Scheduler.dfy`, `SchedulerRuns.dfy`, `SchedulerStore.dfy` | many processes claiming the turn of a job through its row |
| `RateLimit.dfy` | the sliding windows of the mail reception |
| `ImportService.dfy`, `ImportBooks.dfy`, `ImportStore.dfy` | storing reports and keeping the totals of sources and reports |
| `TlsReports.dfy` | cutting the failure details of a report down to a limit |
| `Text.dfy`, `Wrappers.dfy` | string operations, the Option type and a few notions the others share |

Where the program updates objects, tables or lists step by step, the model has a class or a method with a loop whose
contract equates the new state with a function of the old one (or with a step relation, where a query may choose); the
properties are lemmas about these functions and relations. A run is a sequence of states and steps, and a lemma about
runs holds for every one of them.

What comes from outside is a parameter or an open choice: DNS answers, the outcome of a send, the findings of an alert
rule and whether checking or storing raises, the rows a limited query picks, the clock of each process, the verdict on a
report line, the decoding of percent escapes in a mailto URI.

## Where the code and its documentation differ

The model follows the code.

- `app/services/login_guard.py:2-4` promises a lock of the full lockout time after the last failure. The code also needs
  the failures to be still in the window: with a window of 60 seconds and a lockout of 900 one failure locks for a
  minute (`LoginGuard.LockEndsEarly`). `LoginGuard.FullLockExactly` says exactly when the lock lasts as promised, and
  `LoginGuard.LockBound` how many failures get through in any case.
- `app/models/scheduler.py:10` says a job runs once at a time. The code only spaces the starts:
  `SchedulerRuns.WorkMayOverlap` gives two processes at work on one job, `SchedulerRuns.RunKeeps` the least distance
  between their claims. `SchedulerRuns.RunAlone` says exactly when the promise holds: no update finds its row due while
  another process is still at work on the job.
- `app/services/retention.py:12` names a limit per kind. It is one per kind and organisation (`RetentionTotals.Total`),
  and there is none for rejections and login attempts (`RetentionTotals.AllOldGone`). `RetentionLimit.TwiceTheLimit`
  gives, for every limit, a run that removes twice as many reports; `RetentionTotals.LimitExactly` says exactly when a
  run stays within the limit.
- `app/routers/alerts.py:408-423` marks an event as seen whatever its status, so a closed alert can become active beside
  another one of its subject (`AlertRuns.SeenAgain`); `AlertRuns.AcknowledgeExactly` says exactly when.
- `app/services/alert_service.py:742` stores an address cleaned and cut, but lines 634-638 look for it as reported.
  With an address that cleaning changes, deduplication and pause do not see the stored event
  (`AlertChecks.TwiceInABatch`). An address that ends in U+007F or has 46 characters is one
  (`AlertRuns.UncleanAddresses`), and two checks that report it leave two active events of one subject closer than the
  pause (`AlertRuns.RaisedTwice`). `AlertRuns.RunUnique`, `AlertRuns.RunSpaced` and `AlertChecks.SecondCheckExactly`
  say, in terms of what a rule reports and what is stored before, exactly when this happens.
- `app/services/dns_check.py:244-245` adds `v=DMARC1` in front when the version is there but does not come first, which
  gives a record with two versions (`DmarcGuarantees.TwoVersions`; exactly then, by `DmarcGuarantees.DistinctExactly`
  and `DmarcGuarantees.StableExactly`). The program only repairs records that start with the version.
- A report whose import breaks half way is kept and counts as known from then on (`app/services/import_service.py:81-87`
  with 309-316), so sending it again does not complete it until it is removed (`ImportBooks.BrokenStaysOpen`; exactly
  the reports whose file did not break are complete, by `ImportBooks.CompleteExactly`). An exception that gets there
  without a rollback is the missing list file that `app/services/dmarc_evaluator.py:56-61` opens while a line is
  evaluated; `app/routers/upload.py:97-106` commits what was stored until then.

## Model

| member | source | states |
|---|---|---|
| SpfGuarantees.CutOffRefines | app/services/dns_check.py:504-551 | for every zone and record, the walk that stops at ten lookups never counts more than the include tree holds, exceeds ten exactly when the tree does, and otherwise ends in the same count, errors and incomplete flag as the walk with the loop check alone |
| SpfGuarantees.VerdictExact | app/services/dns_check.py:561-598 | cutting the walk off never changes the verdict on a domain |
| SpfVerdict.VerdictIs | app/services/dns_check.py:561-598 | without the walk: the verdict is an error for several records, and for one record from which some chain of distinct names ends in an invalid term, a loop or a name with no or several records, whose include tree takes more than ten lookups, or whose first all is all or +all; otherwise a warning without a record, with ptr in the record itself, with ?all, or with neither all nor redirect=; otherwise unknown when some chain ends at a name without an answer, or the domain has none; otherwise ok |
| SpfVerdict.NotedExactly | app/services/dns_check.py:504-551 | within the limit the walk notes an error, or that it is incomplete, exactly when some chain of names from the domain ends so |
| SpfVerdict.WalkWarns | app/services/dns_check.py:523-524 | only a ptr in the record itself makes the walk warn, under any limits |
| SpfVerdict.ClosingExactly | app/services/dns_check.py:554-558 | the closing all is the first word that is all behind any qualifiers, in any letter case |
| SpfText.MechanismRead | app/services/dns_check.py:508-521 | behind any qualifier or none, a mechanism name in any letter case is read as that mechanism, with what follows the first colon as argument |
| SpfText.InvalidRead | app/services/dns_check.py:516-519 | a term with any other name is invalid, as it is written |
| SpfText.ModifierRead | app/services/dns_check.py:510-514 | a name, an equals sign and a value are a modifier; redirect leads to its value |
| SpfText.CountedExactly | app/services/dns_check.py:56 | include, a, mx, ptr and exists take a lookup, the others none |
| SpfText.RecordRead | app/services/dns_check.py:500-507 | the terms of a record are its words after the first, each read on its own |
| SpfText.VersionExactly | app/services/dns_check.py:487-489 | a text of words is an SPF record exactly when its first word is v=spf1 in any letter case |
| SpfText.ReadExactly | app/services/dns_check.py:543-550 | a name has no record, one, several, or no answer, by the number of SPF texts among those it has |
| SpfGuarantees.QueriesBounded | app/services/dns_check.py:533-551 | in every zone, also a cyclic one, at most ten TXT queries for included and redirected records, each reached over a chain of distinct names at most eleven long |
| SpfGuarantees.WalkKeeps | app/services/dns_check.py:504-551 | every walk keeps the names on a path distinct and pays each query with a counted lookup |
| SpfGuarantees.DepthNeverDecides | app/services/dns_check.py:541-542 | the depth limit never decides: allowing longer chains gives the same result |
| SpfGuarantees.WalksAgree | app/services/dns_check.py:504-551 | from any two states that agree, the limited and the unlimited walk end in states that agree |
| SpfGuarantees.WalkCosts | app/services/dns_check.py:507-530 | the count of the unlimited walk is the size of the include tree defined by recursion on the zone |
| SpfGuarantees.WalkStable | app/services/dns_check.py:538-540 | with finitely many SPF names the loop check alone ends the walk: any depth beyond their number gives the same result |
| Spf.SpfWalk.WalkSpf | app/services/dns_check.py:504-530 | the loop over the terms with its shared counters has the effect of the walk as a function, and terminates |
| Spf.SpfWalk.TakeTerm | app/services/dns_check.py:507-527 | one term has the effect of one step of the walk |
| Spf.SpfWalk.FollowName | app/services/dns_check.py:533-551 | following a name has the effect of one step down; whenever it happens the path has distinct names and is no longer than the count |
| Spf.CheckRecord | app/services/dns_check.py:576-598 | the program's verdict on a record is the one defined on the result of the walk |
| Der.ReadTlv | app/services/dns_check.py:603-617 | on any bytes at any position the reader gives nothing, or a tag with a part that lies within the data |
| Der.ReadTlvExactly | app/services/dns_check.py:603-617 | a value is read exactly when its tag stands there, its length is one octet below 128 or one to four octets behind their number, and its content lies within the data |
| Der.ReadUndoesWrite | app/services/dns_check.py:603-617 | reading at the start of an encoded value gives its tag and exactly its content, whatever stands around it |
| Der.BitLengthExact | app/services/dns_check.py:632-633 | the length reported for n is the only b with 2^(b-1) <= n < 2^b |
| Der.BareKey | app/services/dns_check.py:625-633 | every encoded RSAPublicKey whose lengths fit in four bytes is read, whatever follows it |
| Der.Unwrap | app/services/dns_check.py:629-631 | the reader finds the key inside a SubjectPublicKeyInfo |
| Der.KeyRoundTrip | app/services/dns_check.py:620-636 | for every modulus whose lengths fit, bare or wrapped once, the result is its bit length |
| Der.DoubleWrapRefused | app/services/dns_check.py:622-631 | a key wrapped twice gives no result |
| Der.KeyExactly | app/services/dns_check.py:620-636 | on any bytes: a length is found exactly for a sequence that starts with an integer other than zero, or that wraps such a sequence once in a bit string |
| Der.BitsWithinData | app/services/dns_check.py:620-636 | on any bytes a reported length is positive and at most eight times their number |
| DmarcRecord.SuggestFromRecord | app/services/dns_check.py:223-254 | the loop that fills and completes the tag list suggests what the repair as a function suggests |
| DmarcRepair.PrintRoundTrip | app/services/dns_check.py:183-191 | parsing a printed tag list gives the list |
| DmarcRepair.WithAddressGood | app/services/dns_check.py:210-215 | the repaired URI list reads back as the old destinations with an own address among them, and repairing it again changes nothing |
| DmarcRepair.RepairFoGood | app/services/dns_check.py:240-242 | the repaired fo reads back as 1 and the other options, and repairing it again changes nothing |
| DmarcSoundness.RepairIsSound | app/services/dns_check.py:353-431 | for every live DMARC record the suggestion starts exactly with v=DMARC1, passes the rua check, passes the ruf check when failure reports are wanted, has no tag twice and none without =, and has no syntax problem when the record had none |
| DmarcChecks.RuaExactly | app/services/dns_check.py:393-411 | a record passes the check of rua exactly when one of the addresses of its mailto URIs there is active, in any letter case and whatever stands behind ! or ?; without rua, with an empty one, or with others only it fails |
| DmarcChecks.RuaRepaired | app/services/dns_check.py:210-215 | for every text, the repair adds the own address to rua exactly when the check of rua fails |
| DmarcChecks.RufExactly | app/services/dns_check.py:414-434 | the check of ruf gives nothing with failure reports off, a warning or a note when no listed address is active, a note without the option 1, and passes otherwise |
| DmarcChecks.RufRepaired | app/services/dns_check.py:236-249 | for every text, the repair adds the own address to ruf exactly when the check of ruf warns, and leaves ruf alone when failure reports are not suggested |
| DmarcChecks.SyntaxExactly | app/services/dns_check.py:353-390 | the problems found are exactly the keys that stand twice, the parts without =, the values their keys do not allow, and the destinations that are neither mailto nor web addresses |
| DmarcChecks.WordsExactly | app/services/dns_check.py:366-377 | which words sp, np, t, adkim, aspf and psd allow |
| DmarcChecks.NumbersExactly | app/services/dns_check.py:370-376 | of the decimal numbers pct allows those up to 100, and ri those up to 4294967295 |
| DmarcChecks.OptionsExactly | app/services/dns_check.py:373 | fo allows the options 0, 1, d and s in any letter case |
| DmarcChecks.AddressRead | app/services/dns_check.py:198-203 | the address of a mailto URI is read in lower case, without what follows ! or ? |
| DmarcChecks.VersionExactly | app/services/dns_check.py:281-311 | a record is one of DMARC exactly when it starts with the version in any letter case, and as it should be when the case is right |
| DmarcSoundness.SyntaxInherited | app/services/dns_check.py:353-390 | every syntax problem of the suggestion was one of the record |
| DmarcSoundness.OnlyOwnAdded | app/services/dns_check.py:210-215 | for every text the repair adds no destination but the own address |
| DmarcGuarantees.RepairReady | app/services/dns_check.py:231-254 | the repaired list has each key once, starts with the version, and holds every tag it needs with settled values |
| DmarcGuarantees.DistinctExactly | app/services/dns_check.py:244-245 | the suggestion names a key twice exactly when the record has a version that does not lead |
| DmarcGuarantees.RepairIsStable | app/services/dns_check.py:223-254 | repairing the suggestion suggests the same record, character by character |
| DmarcGuarantees.StableExactly | app/services/dns_check.py:223-254 | over all texts the repair is stable exactly when the version leads or is missing |
| DmarcGuarantees.TwoVersions | app/services/dns_check.py:244-245 | for every target there is a text, with the policy before the version, whose suggestion has two versions and is not stable |
| DmarcGuarantees.AgainLookup | app/services/dns_check.py:232-253 | every key of the suggestion reads as the repaired value of its first occurrence or as what was added |
| DmarcGuarantees.TagKept | app/services/dns_check.py:223-227 | every tag the repair has no reason to touch reads as before; only a missing policy becomes none |
| DmarcGuarantees.DestinationsKept | app/services/dns_check.py:210-215 | every destination in rua and ruf survives, in its place |
| DmarcGuarantees.OrderKept | app/services/dns_check.py:231-254 | first occurrences of all tags but v, rua, ruf and fo keep value and relative order |
| NotificationRuns.RunKeeps | app/services/notification.py:304-315 | in every run each delivery is tried at most once more than the retries allowed, with the pauses between attempts growing as configured |
| NotificationRuns.AttemptsSpan | app/services/notification.py:314-315 | n+1 attempts span at least the delay times 2^n - 1 |
| NotificationRuns.FinalStays | app/services/notification.py:304-311 | sent and skipped are final, and a delivery disappears exactly when its channel is deleted (app/routers/alerts.py:572) |
| NotificationRuns.SentOnce | app/services/notification.py:396-422 | a delivery is sent in at most one step of a run |
| NotificationVerdicts.VerdictExactly | app/services/notification.py:318-362 | what becomes of each delivery: one that is not fetched stays; one whose channel is gone or off, or whose address is empty or does not want the alerts, is skipped; one that still collects stays; one with an alert in a status to skip is skipped; any other is tried, and sent or given its next retry |
| NotificationVerdicts.AttemptExactly | app/services/notification.py:333-358 | a delivery is tried exactly when it is fetched, its channel is on or its address wants the alerts, it does not collect any more, and its alert has no status to skip |
| NotificationVerdicts.SkippedExactly | app/services/notification.py:334-380 | a fetched delivery is skipped exactly for want of a receiver, or for a closed alert once it does not collect any more |
| NotificationVerdicts.SingleTried | app/services/notification.py:349-351 | an open delivery over an active channel that is none of mail is always tried at once, and sent exactly when that succeeds |
| NotificationVerdicts.BundleExactly | app/services/notification.py:352-358 | a mail for a mailbox holds exactly the fetched deliveries for it with a receiver and an open alert, and its outcome is that of each of them |
| NotificationVerdicts.DueExactly | app/services/notification.py:304-315 | in every reachable state a new delivery is due, a failed one as soon as its pause is over and not before, as long as retries are left, and a sent, skipped or deleted one never |
| NotificationRuns.BundleTogether | app/services/notification.py:352-358 | deliveries of one mail share its outcome |
| NotificationRuns.OldestHandled | app/services/notification.py:322-354 | a dispatch at which some due delivery is a window old handles the oldest due delivery |
| NotificationRuns.DispatchSpends | app/services/notification.py:365-429 | each handled delivery costs at least one of the attempts left |
| NotificationRuns.RunSpends | app/services/notification.py:318-429 | over a run everything handled and everything left to try never exceed the attempts allowed for the deliveries raised |
| NotificationDispatch.Outbox.DispatchPending | app/services/notification.py:318-362 | the sorting pass and the two sending loops have exactly the effect of the row-by-row definition, and the counters count the verdicts |
| NotificationDispatch.VerdictsPartition | app/services/notification.py:318-362 | sent, failed, skipped and still collecting add up to the deliveries fetched |
| NotificationDispatch.Outbox.Attempt | app/services/notification.py:396-422 | one send is recorded on every member and on no other delivery |
| NotificationDispatch.Outbox.SkipIfClosed | app/services/notification.py:371-380 | a delivery is skipped here exactly when its alert has a status to skip |
| Classification.RunKeeps | app/services/senders.py:221-332 | over every interleaving of imports, decisions, resets, manual choices, identifications and rule passes, with rules and sender names that may change at each step, unknown holds exactly when nobody classified, and a source no person decided about carries its sender's decision, under one of the names the sender had, exactly when there is one |
| Classification.ManualStays | app/services/senders.py:223-224 | over any stretch of a run in which no person decides about an address, a manual choice about it is neither changed nor made |
| Classification.SettleIsNormal | app/services/source_rules.py:57-81 | decision, then rules, give the normal form whatever led to the present fields |
| Classification.DecideIsNormal | app/services/senders.py:263-266 | a decision leaves every source of the sender in its normal form |
| Classification.ClassifyIsNormal | app/services/senders.py:271-289 | a manual choice is taken over; handing back gives the normal form |
| Classification.IdentifyIsNormal | app/services/senders.py:320-332 | identification leaves the source in the normal form of its new sender |
| Classification.PassIsNormal | app/services/source_rules.py:93-98 | a rule pass leaves every source in its scope in the normal form, but for the name a sender decision was recorded under |
| Classification.PassStays | app/services/source_rules.py:93-98 | a rule pass leaves alone what another organisation has and what a person or a decision settled |
| Classification.ImportCounts | app/services/import_service.py:55-78 | an import counts passed messages for the source with the organisation and address and changes no other; a new source starts unclassified |
| SourceRules.AppliesExactly | app/services/source_rules.py:38-56 | a rule applies exactly when the rules are on, no more messages than allowed have passed, and the network is listed, in any spelling, or the country, or some pattern fits the host |
| SourceRules.ReasonExactly | app/services/source_rules.py:40-56 | the network gives the reason first, then the country, then the first pattern that fits |
| SourceRules.LabelsExactly | app/services/source_rules.py:33-34 | a pattern with a dot fits exactly the hosts whose last labels are its labels |
| SourceRules.TokensExactly | app/services/source_rules.py:35 | a pattern without a dot fits exactly the hosts that have it as a word between other characters |
| SourceRules.NetworkRead | app/services/source_rules.py:42 | a network number is read in any letter case, with or without AS, and with white space around it |
| SourceRules.HostRead | app/services/source_rules.py:50 | a host name is read in lower case without white space and dots around it |
| Classification.HistoryIndependent | app/services/source_rules.py:57-102 | two runs, and a source at any place in each, that end with the same address data, decisions and manual choice: a full pass leaves the same classification in both, but for the name a sender decision was recorded under |
| Classification.SecondPassIdle | app/services/source_rules.py:84-102 | a second full pass changes no source |
| ClassificationStore.SourceIp.ApplyDecision | app/services/senders.py:221-241 | the fields change as defined, and the result tells whether they did |
| ClassificationStore.SourceIp.ApplyRules | app/services/source_rules.py:57-81 | the fields change as defined, and the result tells whether they did |
| ClassificationStore.Registry.Decide | app/services/senders.py:244-268 | exactly the sources of the sender are settled, and the result counts those the decision changed |
| ClassificationStore.Registry.ClassifyManually | app/services/senders.py:271-289 | one source changes as defined, all others stay |
| ClassificationStore.Registry.IdentifySource | app/services/senders.py:320-332 | one source changes as defined, all others stay |
| ClassificationStore.Registry.ApplyRulesAll | app/services/source_rules.py:84-102 | a pass reaches exactly its scope, is left out exactly when the settings are those of the last full pass, and counts the changed sources |
| AlertChecks.RaisedExactly | app/services/alert_service.py:670-685 | for any addresses, checking finding by finding against what is stored raises exactly the findings that no event stored before and no event this batch raised earlier covers, or nothing when storing breaks at one of these or right after |
| AlertChecks.TwiceInABatch | app/services/alert_service.py:634-655 | an open finding twice in one batch gives one event exactly when cleaning leaves its address alone, otherwise two |
| AlertChecks.RulesIndependent | app/services/alert_service.py:668-688 | the events of a rule after an evaluation are those it would have alone, whatever the other rules find, whatever addresses they report and whether they break |
| AlertChecks.SecondCheckExactly | app/services/alert_service.py:658-690 | when the stored addresses are clean, evaluating again at the same time with the same findings changes nothing exactly when every rule that goes through reports only addresses that cleaning leaves alone |
| AlertRuns.RunSpaced | app/services/alert_service.py:649-655 | two events of one rule, domain and address are at least the pause apart all along a run, whichever way the clock went, exactly when each rule that goes through with an address cleaning changes finds, for the cleaned address, no event younger than the pause and no open finding before it in the batch |
| AlertRuns.RunUnique | app/services/alert_service.py:641-646 | a rule has at most one active event per domain and address all along a run exactly when each rule that goes through with an address cleaning changes finds, for the cleaned address, no active event and no open finding before it in the batch, and each event marked as seen is active, has no rule, or has no other active event of its subject |
| AlertRuns.RunClean | app/services/alert_service.py:742 | in every reachable state all stored addresses are clean |
| AlertRuns.RaisedTwice | app/services/alert_service.py:634-655 | for every address that cleaning changes and every pause, two checks that report it leave two active events of one subject, closer than the pause |
| AlertRuns.UncleanAddresses | app/services/text.py:8-25 | an address that ends in U+007F and one of 46 characters are changed by cleaning |
| AlertRuns.CleanIsFine | app/services/alert_service.py:634-655 | checks that report only addresses cleaning leaves alone meet both conditions, whatever is stored |
| AlertRuns.AcknowledgeExactly | app/routers/alerts.py:408-423 | marking any event as seen keeps at most one active event per subject exactly when it was active, has no rule, or no other active event shares its subject |
| AlertRuns.SeenAgain | app/routers/alerts.py:408-423 | raising, resolving, raising again and marking the resolved event as seen leaves two active events of one subject, with clean addresses throughout |
| AlertTargets.TargetsExact | app/services/alert_service.py:704-713 | every active channel that is wanted and every further recipient of the domain is told, once, and nobody else |
| AlertTargets.RuleNotifies | app/services/alert_service.py:704-756 | a rule adds to the queue exactly the notifications of its new events: to a channel that is active and named in the list of the rule, to none when the list cannot be read, and to the further recipients of the domain |
| AlertTargets.SystemNotifies | app/services/alert_service.py:704-756 | an event of the system goes to every active channel and to the further recipients of its domain |
| AlertRules.RaisesExactly | app/services/alert_service.py:634-655 | a finding with a clean address is stored, open and of now, exactly when no event of the rule with its domain and address is open, acknowledged or younger than the pause |
| AlertRules.UncleanRaises | app/services/alert_service.py:634-655 | one with another address is always stored, without control characters and cut to 45 characters |
| AlertRules.RuleRuns | app/services/alert_service.py:662-687 | a rule that is off or of an unknown kind does nothing; one that stores events notes the time and the end of its pause |
| AlertRules.CheckedPerDomain | app/services/alert_service.py:626-631 | a rule of a kind that looks at domains, without a domain of its own, finds what the checks of the active domains find, and breaks when one of them does |
| AlertRules.StatusExactly | app/routers/alerts.py:336-440 | seeing and closing change the status alone: of a group, seeing changes the open events, closing all but the resolved ones |
| AlertBook.Book.RaiseEvent | app/services/alert_service.py:716-757 | one event is stored and one notification queued per target: the active channels the list of the rule names, or all without a rule, and the further recipients of the domain |
| AlertBook.Book.EvaluateOne | app/services/alert_service.py:668-688 | a rule that raises leaves everything as it was before it; otherwise the events found are stored |
| AlertBook.Book.EvaluateRules | app/services/alert_service.py:658-690 | all rules in turn, and the result lists exactly the events stored, in order |
| AlertBook.Book.BulkEvents | app/routers/alerts.py:336-366 | a group action changes exactly the open events of the group, or all of them, and counts the changed ones |
| AlertBook.Book.DeleteRule | app/routers/alerts.py:271-288 | the events of a deleted rule stay, without a rule; all others stay as they are |
| RetentionRuns.WithoutIntegrity | app/services/retention.py:81-156 | removing rows with what belongs to them leaves every key resolvable exactly when no report that stays names a job that goes |
| RetentionRuns.RunKeepsIntegrity | app/services/retention.py:183-203 | after every task of every run all foreign keys resolve |
| RetentionOrder.StatementsKeepIntegrity | app/services/retention.py:81-156 | after every single statement of every batch of a run all foreign keys resolve |
| RetentionOrder.ReportsDeleted | app/services/retention.py:87-92 | deleting report rows leaves all keys resolvable exactly when no record and no alert names one of them |
| RetentionOrder.JobsDeleted | app/services/retention.py:106-109 | deleting job rows leaves all keys resolvable exactly when no error, no attachment and no report names one of them |
| RetentionOrder.MessagesDeleted | app/services/retention.py:121-131 | deleting mail rows leaves all keys resolvable exactly when no attachment, job, alert, failure report or TLS report names one of them |
| RetentionRuns.RunIsOneRemoval | app/services/retention.py:183-203 | a run removes some rows, what belongs to them and every mention of them, and leaves all else as it was |
| RetentionRuns.GoesWithOwner | app/services/retention.py:81-156 | dependent rows go exactly with their owner, and a mention is cleared exactly when its row is gone |
| RetentionRuns.OnlyOldGone | app/services/retention.py:183-199 | every row that is gone was older than the limit of a task of its organisation, and the others keep organisation and time |
| RetentionRuns.RemovesBatch | app/services/retention.py:81-180 | per kind and organisation a run removes exactly as much as the limit allows of what was old enough; of jobs at least that and never more than the limit; of rejections and login attempts all that were old enough |
| RetentionTotals.Total | app/services/retention.py:187-199 | over all organisations a run removes of each kind the sum of what the limit allows of each; of jobs at least that |
| RetentionTotals.AllOldGone | app/services/retention.py:170-180 | rejections and login attempts lose exactly those older than their limit |
| RetentionTotals.RawsEmptied | app/services/retention.py:159-167 | of the mails a run leaves, those with a stored text old enough lose it, as many as the limit allows, and no others |
| RetentionTotals.LimitExactly | app/services/retention.py:12 | a run removes at most the limit of a kind exactly when the portions of the organisations together are within it, of rejections and login attempts when no more are old enough, of stored texts always; of jobs it removes more at least when the portions do |
| RetentionAges.AgesExactly | app/services/retention.py:81-199 | an organisation loses of each kind only what is older than its days, failure reports than the shorter setting, and all of that within the limit; of jobs at least the expired ones no report names, as many as the limit allows |
| RetentionAges.OtherAgesExactly | app/services/retention.py:159-180 | rejections and login attempts go exactly when older than their own days, stored texts only when older than theirs |
| RetentionLimit.TwiceTheLimit | app/services/retention.py:187-199 | for every limit there are tables from which a run over two organisations takes at least twice as many reports |
| RetentionRuns.TasksDiffer | app/services/retention.py:187-200 | a run has each task once per organisation |
| RetentionEnd.RunOrIdle | app/services/retention.py:183-203 | a run finds nothing to remove and changes nothing, or leaves fewer rows |
| RetentionEnd.Converges | app/services/retention.py:12 | runs at a fixed time reach a state with nothing to remove, and stay there |
| RetentionStore.PickOldest | app/services/retention.py:82-84 | a query ordered by time with a limit gives the oldest rows, as many as the limit or all |
| RetentionStore.Database.PurgeReports | app/services/retention.py:81-93 | the statements in their order remove the oldest old reports with records and results, and clear the alerts that name them |
| RetentionStore.Database.PurgeImportJobs | app/services/retention.py:96-110 | only old jobs no report names are removed, with their errors; attachments lose the reference |
| RetentionStore.Database.PurgeMessages | app/services/retention.py:113-132 | old mails are removed with their attachments, and every mention of them cleared |
| RetentionStore.Database.PurgeFailureReports | app/services/retention.py:135-142 | the shorter of the two limits decides; the oldest go first |
| RetentionStore.Database.PurgeTlsReports | app/services/retention.py:145-156 | the oldest old reports are removed with policies and failures |
| RetentionStore.Database.PurgeRawMails | app/services/retention.py:159-167 | old mails lose their stored text and nothing else |
| RetentionStore.Database.RunRetention | app/services/retention.py:183-203 | the loop over the organisations is a run of the tasks in order, and the result counts what each kind lost |
| LoginGuard.LockBound | app/services/login_guard.py:21-34 | when attempts are made only while unlocked, the failures m beyond the limit N in any window W without a success satisfy (m - N) * lockout < W; with a lockout as long as the window no more than N get through |
| LoginGuard.EveryWindow | app/services/login_guard.py:21-34 | the same for every window of a longer history |
| LoginGuard.FullLockExactly | app/services/login_guard.py:30-34 | the lock lasts the full lockout after the last failure exactly when enough failures are still counted at its last moment |
| LoginGuard.LockEndsEarly | app/services/login_guard.py:30-34 | valid settings and a guarded history after which the lock is over before the last failure is a lockout old |
| LoginGuard.StaysUnlocked | app/services/login_guard.py:21-34 | time alone never locks, so a check and the recording after it agree |
| LoginGuard.FoundExactly | app/services/login_guard.py:49-53 | a recorded attempt is found again exactly when address and account fit their columns |
| LoginLocks.LocksExactly | app/services/login_guard.py:21-34 | an address is locked by as many failures as the limit for addresses, an account by as many as the limit for accounts: those in the window without a success at their time or later; the lock ends a lockout after the latest |
| LoginLocks.LoginLockedExactly | app/services/login_guard.py:37-47 | a login is locked exactly while its address or its account is, until the later end |
| LoginLocks.AttemptCounts | app/services/login_guard.py:50-54 | a recorded failure is one more that counts, and a recorded success leaves none |
| LoginGuard.PurgeInvisible | app/services/retention.py:177-180 | removing attempts older than the window changes no decision then or later |
| LoginGuard.StillGuarded | app/routers/auth.py:139-152 | an attempt that was let through keeps every subject shorter than its column guarded |
| LoginGuard.Guard.TryLogin | app/routers/auth.py:139-152 | a login is answered as the full history demands, and recorded exactly when it is let through |
| LoginGuard.Guard.Purge | app/services/retention.py:177-180 | attempts older than the configured days go, and no answer changes |
| SchedulerRuns.RunKeeps | app/scheduler.py:104-149 | with any number of processes, any interleaving and any clocks: one row per job which holds its last claim, claims of a job at least the interval apart, and two processes at work on a job only with claims that far apart |
| SchedulerRuns.ClaimsSpan | app/scheduler.py:112-121 | k claims of a job take at least k-1 intervals |
| SchedulerRuns.OneWinner | app/scheduler.py:112-121 | of processes that try with clocks less than the interval apart exactly one gets the turn when the row was due for any of them, and none otherwise |
| SchedulerRuns.UpdateWins | app/scheduler.py:113-121 | the update counts one row exactly when the row is due for the process |
| SchedulerRuns.WorkMayOverlap | app/scheduler.py:124-149 | two processes can be at work on one job, one interval after the first claim |
| SchedulerRuns.StepAlone | app/scheduler.py:113-121 | after a statement no two processes are at work on one job exactly when it is not an update that finds its row due while another process is at work on the job |
| SchedulerRuns.RunAlone | app/models/scheduler.py:10 | a job runs once at a time all along a run exactly when no update finds its row due while another process is still at work on the job |
| Scheduler.CountsOne | app/scheduler.py:113-121 | with one row per job the update changes one row exactly when it is due |
| SchedulerStore.SchedulerRuns.InsertRow | app/scheduler.py:106-111 | a row is added exactly when the key is free |
| SchedulerStore.SchedulerRuns.UpdateDue | app/scheduler.py:113-119 | the conditional update changes and counts the due rows of the job |
| SchedulerStore.SchedulerRuns.Claim | app/scheduler.py:104-121 | the turn is taken exactly when the interval has passed or the job never ran |
| SchedulerStore.SchedulerRuns.RunJob | app/scheduler.py:124-149 | the book-keeping after the work notes end and outcome of the job and changes no start time |
| RateLimit.WindowBound | smtp_inbound/validator.py:20-48 | every closed window of an hour holds at most the largest limit asked for, for every sequence of requests |
| RateLimit.CountExactly | smtp_inbound/validator.py:20-26 | the counts of a window are the numbers of entries in it |
| RateLimit.Limiter.HourBound | smtp_inbound/validator.py:20-48 | the same for each key of the limiter, after any calls in any order of keys |
| RateLimit.RefusedWhenFull | smtp_inbound/validator.py:29-37 | a request is refused exactly when the window that ends at it is full |
| RateLimit.Limiter.CountWithinWindow | smtp_inbound/validator.py:20-26 | popping expired entries in place counts what the whole history holds in the window |
| RateLimit.Limiter.RecordAndCheck | smtp_inbound/validator.py:40-48 | a request is let through exactly when fewer than the limit were let through in its window, and then counts; other keys do not change |
| RateLimit.Reception.ValidateRecipient | smtp_inbound/validator.py:63-130 | the code for a recipient, and which of the two limits it counts for |
| ImportBooks.RunBalanced | app/services/import_service.py:55-211 | after any sequence of jobs and clean-ups each source counts exactly the records ever stored for it, passed and failed apart, and each complete report exactly its own |
| ImportBooks.OrganizationBalance | app/services/import_service.py:146-211 | the source totals of an organisation add up to its report totals and what is left of reports that broke, hence to the report totals when none did |
| ImportBooks.TallyAddsUp | app/services/import_service.py:276-307 | imported, skipped and failed add up to the files of a job that does not break, and imported counts the reports added |
| ImportBooks.OutcomeExactly | app/services/import_service.py:276-305 | a file is bad without a number, skipped when a report with its number is present in the organisation, and otherwise imported unless storing it breaks |
| ImportBooks.StatusExactly | app/services/import_service.py:307-316 | a job that does not break fails exactly when some of its files are bad and none brings a new number; one that breaks always fails |
| ImportBooks.BreaksExactly | app/services/import_service.py:276-316 | a job breaks exactly when the last report it opens does, and none before that breaks |
| ImportBooks.ImportedExactly | app/services/import_service.py:296-304 | a job that does not break imports each new number exactly once, however often it occurs |
| ImportBooks.AgainIdle | app/services/import_service.py:296-299 | importing the files of a job again stores nothing and changes no total |
| ImportBooks.RunNoTwins | app/services/import_service.py:81-87 | an organisation never has two present reports with one number |
| ImportBooks.CompleteExactly | app/services/import_service.py:90-227 | at every moment of every run a report is on record as the file that opened it left it: complete with its totals exactly when that file did not break |
| ImportBooks.BrokenStaysOpen | app/services/import_service.py:296-316 | whatever jobs come in between, a report that broke is still there and incomplete until it is removed, and every file with its number is skipped |
| ImportBooks.JobOpens | app/services/import_service.py:274-316 | a job adds one report for each file that is readable, numbered and not known when its turn comes, and changes no other report |
| ImportStore.Database.UpsertSourceIp | app/services/import_service.py:55-78 | one source gains the count on its side, and no other changes |
| ImportStore.Database.CheckDuplicate | app/services/import_service.py:81-87 | known exactly when a present report of the organisation has the number |
| ImportStore.Database.StoreParsedReport | app/services/import_service.py:90-227 | the loop over the lines stores records, sources and totals as defined, also when it breaks |
| ImportStore.Database.ProcessImportJob | app/services/import_service.py:274-316 | the loop over the files stores, counts and ends as defined |
| TlsReports.LimitedSize | app/services/tls_reports.py:231-241 | as many details are kept as the limit allows |
| TlsReports.KeptBefore | app/services/tls_reports.py:237 | every detail kept has more sessions than every one left out, or as many and an earlier position |
| TlsReports.MostSessions | app/services/tls_reports.py:232 | no other choice of at most as many details covers more failed sessions |
| TlsReports.FirstAreKept | app/services/tls_reports.py:237 | sorting stably by falling sessions and taking the first picks exactly the details that fewer than the limit go before |
| TlsReports.LimitedWhole | app/services/tls_reports.py:235-236 | within the limit nothing changes |
| TlsReports.LimitFailures | app/services/tls_reports.py:231-241 | the lists of the policies are cut in place to the details kept, in their order; kept and omitted add up, and the summaries stay |

## Left out

- Resolver: a lookup gives the same answer throughout one check; its cache, the time budget of a check and a name that fails once and answers later are not modelled.
- Text: letter case is that of ASCII, text is not normalised, and it holds no raw bytes of a mail that still need decoding.
- DmarcRecord.Mailto: percent decoding is a parameter; the lemmas about repairs ask that it leaves texts without escapes alone and that the report address is active and plain.
- DmarcRecord.SyntaxProblems: notes about unknown tags are not problems and are left out.
- The policy check, the search for an inherited record, consent records, DKIM selectors, MX and TLS-RPT checks, and which check shows the suggestion.
- NotificationDispatch.Outbox.DispatchPending: a send is one event with an outcome; what the mail says, and a process that dies between sending and recording, are not modelled.
- Classification.RunKeeps: who classified and when is not modelled.
- ClassificationStore.Registry.IdentifySource: how the catalog finds a sender is open; any sender or none may result, with any evidence. Which sources a refresh looks at, and in which order, is open too.
- The evaluators of the alert rules: any findings may result, or an exception. Titles, descriptions and metrics of events.
- RetentionTotals.LimitExactly: for jobs of several organisations the condition goes one way only; which jobs become free in time depends on which of equally old reports the queries pick, so the tables at the start do not decide it.
- RetentionStore.Database.PurgeImportJobs: the files of jobs and mails on disk, and how many were deleted, are not modelled.
- Isolation of database transactions: dispatch, alert evaluation, retention, import and login are sequential steps; only the claim of the scheduler is interleaved, statement by statement.
- LoginGuard.Guard.TryLogin: two logins that check before either is recorded are not modelled. Subjects as long as their column are guarded only if no longer input is cut to them.
- RateLimit: times are whole nanoseconds; the rounding of floating point clocks is not modelled, nor the refusal codes the address lookup chooses.
- ImportService: counts are unbounded integers; pass rates, the domain of a report, its cached policy and unpacking of archives are not modelled.
- TlsReports: reading the JSON document, its counts and their upper bounds.
- Web pages, digests, charts, mail texts, SMTP, HTTP and DNS transport, migrations, settings, sessions and roles.
