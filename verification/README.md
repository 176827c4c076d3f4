# Proofs about the OpenAirInterface AMF

A Dafny 4.11 model of the parts of the 5G AMF that hold state machines, protocols and codecs, with proofs of what
they keep over every run and every input. `dafny verify dfyconfig.toml` checks all of it.

| file | what it models |
|---|---|
| `Slices.dfy`, `GnbLifecycle.dfy` | slice intersection, gNB associations, NG Setup, Reset, Shutdown, the configuration lock |
| `UeContexts.dfy`, `N2Handlers.dfy`, `N2Runs.dfy`, `Handover.dfy`, `AmfN2.dfy` | the UE indexes, the N2 handlers as a state machine, properties of its runs, the handlers as methods of an object |
| `N2Effects.dfy` | what the handlers that release or connect UEs do to the tables, said of the tables alone |
| `StaleKeys.dfy`, `SecondHandover.dfy` | concrete runs in which an old RAN key or an old accepted flag shows |
| `RegistrationNssai.dfy` | `check_subscribed_nssai`, the Allowed and Rejected NSSAI, and the end-to-end slice property |
| `IttiTimers.dfy`, `TimerIds.dfy`, `IttiQueues.dfy` | the timer manager, its id counter, and the message queues, each critical section one step |
| `NasProtection.dfy` | NAS integrity protection, ciphering and message numbers |
| `Responses.dfy` | the promise registry and the loops that wait for replies |
| `HexCodec.dfy`, `Sqn.dfy`, `Guti.dfy`, `Numerals.dfy`, `SmfSelection.dfy` | hex text, SQN, TMSI and GUTI, SD strings, the choice of an SMF |

Each handler that updates state is a method of a class. Its contract fixes the whole new state, and what it sends, as
those of a step function (for the id generator, of a step relation that has one outcome), and the lemmas speak about
runs of these steps, given as event lists.

What is one step: in the ITTI files each critical section, each read of the timer slot, each look at a task and each
push. In the gNB and N2 files each handler, except that NG Setup (before and after the slices are intersected) and a
configuration update (gate and write) are two steps each, since the N2 task and the application task run them without a
common lock. Between the two steps of the one, the steps of the other thread and new associations may come, in any
order; the N2 task itself takes no message inside an NG Setup, and the application task none inside an update.

A run of gNB events is *disciplined* when it uses no association after its Shutdown and presents no gNB id that is 0 or
that another live association has presented. It has a *race* where an update that brings a PLMN list passes the gate
inside an accepted NG Setup, or an accepted NG Setup begins between gate and write. A run of the N2 machine is *orderly*
when each gNB event in it meets the condition `Harmless` of `StepSecureIff` in the state before it, and no UE message
comes from an association after its Shutdown; disciplined runs without a race are (`DisciplinedIsOrderly`).

## Main results

- Slices: a run keeps every stored slice configured exactly under stated conditions (`RunSafeIff`, `RunSecureIff`); a
  disciplined run is secure iff it has no race (`DisciplinedRunSecureIff`); and so, end to end, every slice of the
  Allowed NSSAI is configured (`StoredSlicesStayConfigured`, `CommonNssaiStaysConfigured`, `AllowedNssaiIsConfigured`).
- UE indexes: what NG Reset, whole or partial, and Shutdown remove and spare, in all four maps, and which RAN keys
  survive (`ReleaseAllExact`, `ResetSparesOtherGnbs`, `ConnectionsExact`, `KeySurvivesLoopIff`, `RunKeysLiveIff`).
- Handover over whole runs: which sessions are reported COMPLETED, where the commands go, and the NCC
  (`CompletedIffPrepared`, `CompletedInHandoverIff`, `HandoverMovesUe`, `NccCountsHandovers`).
- Timers and queues in every interleaving: each timer is in one place, fires once and not early, after a removal exactly
  if in flight, and the manager left alone fires all in order; queues are first in, first out, and a call reports what it
  did (`EachTimerInExactlyOnePlace`, `FiresAfterRemoveIffInFlight`, `LeftAloneAllFire`, `IdsDistinctIff`,
  `QueuesAreFifo`, `UnicastOkIffPushed`, `BroadcastReachesReadyOnce`).
- NAS protection: the round trip, every octet on the wire, when counts repeat, and that receipt does not depend on
  history (`RoundTrip`, `SecurityModeOnTheWire`, `CountsRepeatIff`, `ReceiptIgnoresHistory`).
- Promises, SQNs, TMSIs and hex text over whole runs and all inputs (`PromiseGetsFirstTrigger`, `VerdictFalseIff`,
  `ReusedIff`, `EveryGutiKeepsItsContext`, `DecodeHex`, `AsciiToHexSucceedsIff`).

## What the code does not keep

Some properties one would expect are false of the code. Each has lemmas that give failing inputs or say exactly when the
property holds.

- **The gate protects the configuration.** An update is refused while a gNB is recorded in the statistics, but a gNB is
  recorded only at the end of its NG Setup, and the gate is a check before the write. An update inside the NG Setup of
  a first gNB, or an NG Setup between gate and write, leaves an attached gNB with slices that are not configured
  (`UpdateInsideSetupBreaksSafety`, `SetupInsideUpdateBreaksSafety`). A write is harmless, whatever it brings, iff no
  live gNB stores a slice at that point (`WritesSafeIffQuiet`); a disciplined run is secure all along, in every write
  too, iff there is no race (`DisciplinedRunSecureIff`).
- **Stored slices stay configured.** Also without a race the record can go while another gNB still stores slices: when
  two associations use one gNB id, and when a gNB has id 0, which is also the id of an association that never
  completed NG Setup. Besides, `remove_gnb_context` is called with the association id although it erases from the map
  keyed by gNB id, so the context and its supported TA list survive a Shutdown: a new association, or a Reset, with
  the same association id brings the old list back to life, and NG Setup appends to it. `SharedGnbIdBreaksSafety`,
  `GnbIdZeroBreaksSafety` and `ReuseAfterShutdownBreaksSafety` show these. `RunSafeIff` says exactly which events of a
  run lose safety, and `StepSecureIff` and `RunSecureIff` when the gate still protects it. A gNB that changes its id
  leaves the configuration locked for good (`ChangedIdLocksConfiguration`).
- **A RAN id leads to a UE of a live gNB.** Handover Notify adds the new RAN key and keeps the old one. A key survives a
  Reset or Shutdown iff the release loop does not ask for it (`KeySurvivesLoopIff`; `KeySurvivesReleaseIff` says which
  keys it asks for where no RAN id was given twice), and slices read through it need not be configured
  (`HandoverThenShutdownsYieldOldSlices`, an orderly run). All along an orderly run every RAN key leads to a live gNB
  iff each Shutdown asks for every key of its own UEs (`RunKeysLiveIff`). Through a key that is the UE's own RAN id,
  or that leads to a UE of a live gNB, the slices are configured, handovers included (`CommonNssaiStaysConfigured`);
  through any other an update can change that iff the gate is open and something is stored there
  (`UpdateUnconfiguresIff`).
- **A RAN id belongs to one gNB.** The map is keyed by RAN id alone, so an Initial UE Message takes over the context of
  a UE of another gNB iff its RAN id leads to one (`InitialUeTakesOverIff`).
- **COMPLETED only what this handover prepared.** `is_ho_accepted` is never cleared, so a later handover also reports
  sessions that only an earlier one admitted (`SecondHandoverCompletesUnprepared`). From any point of a run on, a
  session is reported iff it was prepared since or its flag was up already (`CompletedInHandoverIff`).
- **A NAS message is accepted once.** The stored uplink number is overwritten from the message before it is used, so an
  accepted message is accepted again after any others (`ReceiptIgnoresHistory`).
- **NAS counts are not used again.** The overflow part never moves, so the 257th message has the count of the first
  (`CountRepeats`); `CountsRepeatIff` says when two messages share a count.
- **An unknown handover target is refused.** `gnb_id_2_gnb_context` looks the id up with `map::at`
  (`src/ngap/ngap_app/ngap_app.cpp:174-177`) and nothing catches the exception: the process ends. In the model the
  state is then `halted` and does not change any more; `ProcessEndsIff` gives the exact condition.
- **Every timer fires or is removed.** Pending timers are a set ordered by deadline alone (`src/itti/itti.hpp:87-91`),
  so a timer whose deadline equals that of a pending one is dropped, although its id is returned
  (`EqualDeadlineLosesTimer`, `InsertDropsIffEqualDeadline`).
- **Timer ids are unique.** The counter is incremented without a lock; the ids are distinct iff no increment begins
  inside another thread's (`IdsDistinctIff`).
- **A removed timer does not fire.** Between building the timeout message and sending it, `timer_remove` still answers
  RETURNok and the message goes out (`LateRemoveDoesNotStopTimer`); `FiresAfterRemoveIffInFlight` gives the exact
  condition.
- **The SMF address is that of the chosen SMF.** When the first instance that supports the slice carries no address, the
  one returned is that of an earlier instance that does not support it (`AddressOfEarlierInstance`).
- **TMSI text has four characters.** For five digits and more the pad length wraps, and the text has 260
  (`TmsiStringReadsBack`).
- **GUTI keys tell networks apart.** Without three digits in every MCC two networks can share a key
  (`ShortMccSharesKey`); `SameKeyIff` says when two keys are equal. Two allocations never share one.

## Model

The rows whose third column begins with "in one step" are at the end: they are facts about a single step.

| member | source | states |
|---|---|---|
| Slices.GetCommonPlmn | src/amf-app/amf_n2.cpp:2321-2376 | the loops append the common items and never clear the result; true iff this call found a common slice |
| Slices.OneItemPerMatchingTriple | src/amf-app/amf_n2.cpp:2326-2371 | one item is appended per matching (configured PLMN, TA, broadcast PLMN) triple, none twice, in lexicographic order |
| Slices.CommonSlicesExact | src/amf-app/amf_n2.cpp:2347-2366 | an item holds exactly the offered slices that the AMF entry also has |
| Slices.CommonSlicesFilterOffered | src/amf-app/amf_n2.cpp:2347-2366 | with no slice configured twice an item's list is the offered list, filtered, in the offered order |
| Slices.StoredIffShared | src/amf-app/amf_n2.cpp:2321-2376 | a slice is stored iff the gNB offers it for a PLMN and TA for which the AMF has it configured |
| Slices.CommonEntriesExact | src/amf-app/amf_n2.cpp:2321-2376 | a slice is stored under a TAC, MCC and MNC iff the gNB offers it for them and a configured PLMN with them has it |
| Slices.StoredInTermsOfNas | src/amf-app/amf_n2.cpp:2347-2366 | a slice is stored under a TAC, MCC and MNC iff it is broadcast with them and a configured PLMN with them has a slice of its printed SST and its NAS form |
| Slices.OfferedConfiguredIsStored | src/amf-app/amf_n2.cpp:2355-2364 | every configured slice that is offered, printed, under the same TAC, MCC and MNC is stored, also one without SD |
| Slices.SameSliceIffSameNas | src/amf-app/amf_n2.cpp:2355-2364 | an offered slice equals a configured one iff its SST is the printed one and both have the same NAS form |
| Slices.NoSdIsPrinted | src/ngap/ngapIEs/S-NSSAI.cpp:105-112 | no SD is the text 16777215 |
| Slices.SetupSucceedsIffShared | src/amf-app/amf_n2.cpp:2321-2376 | get_common_plmn is true iff gNB and AMF share a slice |
| Slices.GetCommonNssai | src/amf-app/amf_n2.cpp:2403-2431 | the loops yield the NAS form of the stored slices, list by list up to a bad SST; true iff there is one |
| Slices.NasOfSlicesStops | src/amf-app/amf_n2.cpp:2405-2417 | of one list exactly the slices before the first whose SST is no number are converted |
| Slices.CommonNssaiIsStored | src/amf-app/amf_n2.cpp:2403-2419 | while the stored slices are configured, get_common_NSSAI yields exactly them, one by one, and its exception path is not taken |
| Slices.CommonNssaiConfigured | src/amf-app/amf_n2.cpp:2403-2419 | and each slice it yields is configured |
| Slices.CommonNssaiServed | src/amf-app/amf_n2.cpp:2403-2419 | and each slice it yields stands for an entry stored and configured for the same TAC, MCC and MNC |
| Numerals.SdRoundTrip | src/common/conversions.cpp:328-347 | every 32-bit SD, printed as a signed number, is read back as itself |
| Numerals.SdRoundTripUnsigned | src/common/conversions.cpp:328-347 | every unsigned 32-bit SD, printed, is read back as itself |
| Numerals.SdTexts | src/common/conversions.cpp:328-347 | what the empty text, the bare prefix, the prefix with digits in either case, text that is no number, and leading white space and signs give |
| Numerals.StoiReadsInts | src/amf-app/amf_n2.cpp:2409 | the SST text is read for every 32-bit number and refused beyond |
| GnbLifecycle.UpdatesSafeIffGateSound | src/amf-app/amf_app.cpp:846-853 | the gate protects the stored slices against every uninterrupted update iff nothing is stored while no gNB is recorded |
| GnbLifecycle.WritesSafeIffQuiet | src/amf-app/amf_app.cpp:852 | what an update that has passed the gate may write is harmless, whatever it is, iff no live gNB stores a slice at that point |
| GnbLifecycle.ShutdownKeepsGateIff | src/amf-app/amf_n2.cpp:534-563 | a Shutdown keeps the gate sound iff another gNB stays recorded or no other live gNB stores a slice |
| GnbLifecycle.SetupSafeIff | src/amf-app/amf_n2.cpp:383-459 | an accepted NG Setup that is not interrupted is safe iff what the association stored before is configured for its PLMNs and TAs |
| GnbLifecycle.SetupAcceptedIff | src/amf-app/amf_n2.cpp:316-401 | a setup response is due iff the association is known, gNB id, paging DRX and list are there, and a slice is shared |
| GnbLifecycle.BeginWrites | src/amf-app/amf_n2.cpp:336-401 | whatever comes of it, NG Setup writes the gNB id where it is there, and one item per matching triple where the request is complete |
| GnbLifecycle.StateIsLastLeftIn | src/ngap/ngap_app/ngap_app.cpp:84-117 | in every run the state of an association is what the last Association, end of NG Setup, Reset or Shutdown left it in |
| GnbLifecycle.GnbIdLeadsToLast | src/amf-app/amf_n2.cpp:409 | in every run a gNB id leads to the association whose NG Setup with it ended last, unless a Shutdown erased it as an association id |
| GnbLifecycle.RunSafeIff | src/amf-app/amf_n2.cpp:311-563 | in any interleaving the stored slices are configured all along iff every association that becomes live, and every write of a list, finds what is stored configured |
| GnbLifecycle.StepSecureIff | src/amf-app/amf_n2.cpp:311-563 | over the split steps: from a state that is safe, with a sound gate and nothing stored under a pending write, each event leads to such a state iff it meets its condition; for the gate, that no NG Setup with stored slices is under way, for the begin of an accepted NG Setup, that no write is pending, for Association and Reset, that what is stored is configured and nothing while an update may come |
| GnbLifecycle.RunSecureIff | src/amf-app/amf_n2.cpp:311-563 | in any interleaving of NG Setups, updates and the other events a run is secure all along iff every event meets its condition |
| GnbLifecycle.DisciplinedRunSecureIff | src/amf-app/amf_app.cpp:846-853 | a disciplined run is secure all along iff no update that brings a list passes the gate inside an accepted NG Setup and no accepted NG Setup begins between gate and write |
| GnbLifecycle.DisciplinedRunIsHarmless | src/amf-app/amf_n2.cpp:311-563 | every event of a disciplined run without a race meets its condition |
| GnbLifecycle.StoredSlicesStayConfigured | src/amf-app/amf_n2.cpp:383-459 | in every disciplined run without a race each slice stored for a live gNB is configured now, and was offered, for the same TAC, MCC and MNC; and so is its NSSAI |
| GnbLifecycle.UpdateAllowedIffNoneAttached | src/amf-app/amf_statistics.cpp:137-165 | in disciplined runs, with gNB ids kept, the gate is open exactly while no live association has completed NG Setup |
| GnbLifecycle.UpdateInsideSetupBreaksSafety | src/amf-app/amf_n2.cpp:383-459 | a disciplined run with one gNB in which an update inside its NG Setup leaves it attached with slices not configured |
| GnbLifecycle.SetupInsideUpdateBreaksSafety | src/amf-app/amf_app.cpp:847-852 | the same with the NG Setup between the gate and the write of the update |
| GnbLifecycle.SharedGnbIdBreaksSafety | src/amf-app/amf_statistics.cpp:137-150 | two associations with one gNB id break safety |
| GnbLifecycle.GnbIdZeroBreaksSafety | src/amf-app/amf_n2.cpp:556-558 | Shutdown of an association that never set up removes the record of gNB id 0 |
| GnbLifecycle.ReuseAfterShutdownBreaksSafety | src/ngap/ngap_app/ngap_app.cpp:82-117 | an association id used again after Shutdown brings back slices that are no longer configured |
| GnbLifecycle.ChangedIdLocksConfiguration | src/amf-app/amf_statistics.cpp:137-150 | a gNB that changes its id leaves the configuration locked with no live gNB |
| UeContexts.CollectExact | src/amf-app/amf_n2.cpp:2227-2235 | exactly the contexts of the association that a RAN key leads to are collected |
| UeContexts.ReleaseAllRemoves | src/amf-app/amf_n2.cpp:486-496 | from any state, no AMF-id or NAS entry of a collected UE is left, and a RAN key left for the association is stale |
| UeContexts.ReleaseAllLeavesNoKey | src/amf-app/amf_n2.cpp:545-552 | without stale keys no RAN key of the association is left |
| UeContexts.ReleaseAllExact | src/amf-app/amf_n2.cpp:2183-2224 | in consistent tables the release loop removes exactly the entries of the association's UEs |
| UeContexts.KeySurvivesLoopIff | src/amf-app/amf_n2.cpp:2183-2224 | in any tables a RAN key survives Reset or Shutdown iff no release of the loop, in the tables it finds at its turn, asks for it |
| UeContexts.KeySurvivesReleaseIff | src/amf-app/amf_n2.cpp:2183-2224 | where own keys lead to their contexts, the loop asks for a key iff it is the RAN id of a released context or that of its NAS context |
| UeContexts.ResetSparesOtherGnbs | src/amf-app/amf_n2.cpp:2287-2318 | if nothing is shared, resetting one gNB leaves every entry of every UE of the others, in all four maps |
| N2Effects.ConnectionsExact | src/amf-app/amf_n2.cpp:499-513 | a partial reset leaves in each of the four maps exactly the entries that no listed connection asks for in its turn, by AMF id or else by RAN id |
| N2Effects.PartResetReleasesListed | src/amf-app/amf_n2.cpp:499-513 | after it each listed AMF id is in no map, nor is its IMSI entry, nor its NAS context's RAN key if that was there at its turn; nor each RAN id listed without one, with the entries of its context |
| N2Effects.KeySurvivesPartResetIff | src/amf-app/amf_n2.cpp:2183-2224 | a RAN key survives a partial reset iff no listed connection asks for it in its turn |
| N2Effects.ConnectionExact | src/amf-app/amf_n2.cpp:2287-2318 | one connection releases what it asks for from all four maps, and nothing else |
| N2Effects.InitialUeServes | src/amf-app/amf_n2.cpp:566-640 | Initial UE Message is ignored before NG Setup; else its RAN id leads to a context with this RAN id and association, and nothing else changes |
| N2Effects.DlNasConnects | src/amf-app/amf_n2.cpp:773-796 | Downlink NAS Transport for a UE of a known gNB makes RAN id and AMF id lead to one connected context with this AMF id |
| N2Effects.AssignConnects | src/amf-app/amf_app.cpp:408-418 | so does the assignment of an AMF id |
| N2Effects.ConnectedCanBeHandedOver | src/amf-app/amf_n2.cpp:1437-1456 | such a UE is accepted for handover under both ids |
| N2Effects.AddedSessionIsNew | src/contexts/pdu_session_context.cpp:40 | a new session has a context of its own, not accepted |
| N2Effects.SessionsSharedAndRemoved | src/contexts/pdu_session_context.cpp:40 | a shared session leads to the other's context and a removed one nowhere; nothing else changes |
| N2Runs.CoreOfRun | src/amf-app/amf_n2.cpp:465-563 | the gNB part of an N2 run that has not halted is a run of the gNB lifecycle; UE messages do not touch it |
| N2Runs.CommonNssaiStaysConfigured | src/amf-app/amf_n2.cpp:2379-2431 | in every orderly run with handovers, what get_common_NSSAI yields through a UE's own RAN id, or through any key of a UE of a live gNB, is stored and configured for one TAC, MCC and MNC at that moment |
| N2Runs.DisciplinedIsOrderly | src/amf-app/amf_n2.cpp:311-563 | runs with a disciplined gNB part without a race and no UE message from an association after its Shutdown are orderly |
| N2Runs.NotifyKeepsKeysOwnIff | src/amf-app/amf_n2.cpp:1997-2001 | Handover Notify leaves a stale key iff it gives a reachable context a new RAN id |
| N2Runs.ReleaseLeavesOnlyStaleKeys | src/amf-app/amf_n2.cpp:486-497 | from any state, Reset or Shutdown leaves only stale RAN keys of the gNB and no AMF-id, NAS or IMSI entry of its UEs |
| N2Runs.ReleaseLeavesNothing | src/amf-app/amf_n2.cpp:486-497 | in a run without Handover Notify, Reset or Shutdown leaves no RAN key of the gNB |
| N2Runs.EveryUeGetsConfiguredSlices | src/amf-app/amf_n2.cpp:2379-2431 | without Handover Notify every UE that is found is served by a live gNB and gets only configured slices |
| N2Runs.ShutdownKeepsKeysLiveIff | src/amf-app/amf_n2.cpp:534-563 | a Shutdown keeps every RAN key leading to a live gNB iff its release loop asks for each key of its own UEs |
| N2Runs.RunKeysLiveIff | src/amf-app/amf_n2.cpp:534-563 | all along an orderly run every RAN key leads to a live gNB iff the loop of each Shutdown asks for each key of its own UEs |
| StaleKeys.StaleKeyYieldsOldSlicesIff | src/amf-app/amf_n2.cpp:1997-2001 | the slices of a gNB can still be read through a RAN key after its Shutdown iff the release loop does not ask for the key |
| StaleKeys.UpdateUnconfiguresIff | src/amf-app/amf_n2.cpp:2379-2431 | in a secure state some update makes what is read through a RAN key unconfigured iff the gate is open, something is read, and the gNB of the key is shut down or inside its NG Setup |
| StaleKeys.HandoverThenShutdownsYieldOldSlices | src/amf-app/amf_n2.cpp:1997-2001 | for every configuration and gNB that share a slice, an orderly run from the start with one UE and two gNBs ends with a key that yields a slice not configured |
| Handover.CompletedExact | src/amf-app/amf_n2.cpp:1905-1941 | COMPLETED is reported exactly by a handled Handover Notify, for exactly the UE's accepted sessions |
| Handover.AcceptedIffPrepared | src/amf-app/amf_n2.cpp:1750-1832 | in every run a session counts as accepted iff an earlier Handover Request Ack reported it PREPARED and got a non-empty reply |
| Handover.CompletedIffPrepared | src/amf-app/amf_n2.cpp:1905-1941 | so Handover Notify reports a session COMPLETED iff some earlier Ack of the run prepared it |
| Handover.CompletedOnlyAfterPrepared | src/amf-app/amf_n2.cpp:1907-1938 | every COMPLETED report comes after an Ack that prepared the same session context |
| Handover.CompletedInHandoverIff | src/amf-app/amf_n2.cpp:1905-1941 | from any point of the run on, it is reported COMPLETED iff an Ack since then prepared it or its flag was up at that point |
| Handover.SecondHandoverReportsFirst | src/amf-app/amf_n2.cpp:1907-1938 | a handover whose Ack admits nothing still reports every session whose flag was up before |
| SecondHandover.SecondHandoverCompletesUnprepared | src/amf-app/amf_n2.cpp:1831 | an orderly run from the start in which a handover that prepares no session reports one COMPLETED |
| Handover.PreparedIsReported | src/amf-app/amf_n2.cpp:1750-1785 | what an Ack prepares is reported to the SMF as PREPARED |
| Handover.RequiredSends | src/amf-app/amf_n2.cpp:1419-1693 | all that Handover Required sends: PREPARING for each listed session that exists, then the request unless the target is unknown |
| Handover.AckSends | src/amf-app/amf_n2.cpp:1696-1850 | all that Handover Request Ack sends: PREPARED for each admitted session in order, then the command |
| Handover.NotifySends | src/amf-app/amf_n2.cpp:1853-2002 | all that Handover Notify sends: COMPLETED for each accepted session of the UE once, in order, then the release command |
| Handover.OthersSendNothing | src/amf-app/amf_n2.cpp:465-829 | the other events of the machine send none of these messages |
| Handover.HandoverMovesUe | src/amf-app/amf_n2.cpp:1419-2002 | over any run, with any events between the three messages that do not write the UE's context or its entries: request to the target with the AMF id, the NCC and exactly the listed, existing and answered sessions, each once; command with exactly the answered admitted ones to the association and RAN id of the UE at Handover Required, release to the same; the UE ends at the notifying association; its old key stays |
| Handover.RunKeepsUe | src/amf-app/amf_n2.cpp:2183-2318 | no stretch of a run without an event that asks for the UE, or addresses it, changes its context or its entries |
| Handover.NccCountsHandovers | src/amf-app/amf_n2.cpp:1468-1470 | in every run NCC is one plus the Handover Required messages accepted since the last Initial Context Setup, modulo 256 |
| AmfN2.GnbTables.BeginNgSetup | src/amf-app/amf_n2.cpp:311-401 | up to the intersection the new state is the first step; true iff a slice is shared |
| AmfN2.GnbTables.EndNgSetup | src/amf-app/amf_n2.cpp:403-462 | the rest of an accepted NG Setup is the second step |
| AmfN2.GnbTables.PassGate | src/amf-app/amf_app.cpp:847-851 | the gate is the first step of an update; true iff no gNB is recorded |
| AmfN2.GnbTables.FromJson | src/amf-app/amf_config.cpp:1092-1099 | the write is the second; a list that is present is taken even where a later member fails |
| AmfN2.GnbTables.HandleNgSetup | src/amf-app/amf_n2.cpp:311-462 | an uninterrupted NG Setup is its two steps; true iff a setup response is sent |
| AmfN2.GnbTables.HandleNewAssociation | src/ngap/ngap_app/ngap_app.cpp:84-117 | the new state is the association step |
| AmfN2.GnbTables.HandleUpdate | src/amf-app/amf_app.cpp:846-853 | an uninterrupted update is its two steps; true iff no gNB is recorded and the text is good |
| AmfN2.GnbTables.RemoveGnb | src/ngap/ngap_app/ngap_app.cpp:189-195 | erases the association id from the gNB ids and the gNB's id from the statistics |
| AmfN2.N2Task.RemoveUeContextWithAmfUeNgapId | src/amf-app/amf_n2.cpp:2287-2318 | the new tables are those of the removal by AMF id |
| AmfN2.N2Task.RemoveUeContextWithRanUeNgapId | src/amf-app/amf_n2.cpp:2183-2224 | the new tables are those of the removal by RAN id |
| AmfN2.N2Task.GetUeNgapContexts | src/amf-app/amf_n2.cpp:2227-2235 | collects the contexts of the association in key order |
| AmfN2.N2Task.HandleNgReset | src/amf-app/amf_n2.cpp:465-531 | reset of the whole interface is its step |
| AmfN2.N2Task.HandlePartNgReset | src/amf-app/amf_n2.cpp:499-513 | partial reset is its step, by AMF id where one is given, else by RAN id |
| AmfN2.N2Task.HandleNgShutdown | src/amf-app/amf_n2.cpp:534-563 | Shutdown is its step |
| AmfN2.N2Task.HandleInitialUe | src/amf-app/amf_n2.cpp:566-640 | Initial UE Message finds or creates the context under the RAN id and takes over RAN id and association |
| AmfN2.N2Task.AssignAmfUeNgapId | src/amf-app/amf_app.cpp:408-418 | the UE's context gets the AMF id and the AMF-id map leads to it |
| AmfN2.N2Task.HandleDlNasTransport | src/amf-app/amf_n2.cpp:773-796 | Downlink NAS Transport is its step |
| AmfN2.N2Task.HandleInitialContextSetup | src/amf-app/amf_n2.cpp:810-829 | Initial Context Setup sets NCC to one, whether or not the gNB is known |
| AmfN2.N2Task.GetCommonNssai | src/amf-app/amf_n2.cpp:2379-2431 | yields the slices stored for the gNB of the UE's context |
| AmfN2.N2Task.HandleHandoverRequired | src/amf-app/amf_n2.cpp:1419-1693 | new state and messages are those of the Handover Required step; an unknown target ends the process |
| AmfN2.N2Task.HandleHandoverRequestAck | src/amf-app/amf_n2.cpp:1696-1850 | new state and messages are those of the Handover Request Ack step |
| AmfN2.N2Task.HandleHandoverNotify | src/amf-app/amf_n2.cpp:1853-2002 | new state and messages are those of the Handover Notify step |
| AmfN2.N2Task.WaitAndAccept | src/amf-app/amf_n2.cpp:1800-1840 | the waiting loop answers and marks exactly the sessions with a non-empty reply, in key order |
| RegistrationNssai.CheckSubscribedNssai | src/amf-app/amf_n1.cpp:4529-4643 | true iff the last configured PLMN matching the TAI serves all slices both requested and subscribed, or all defaults when there are none |
| RegistrationNssai.CommonSubscribed | src/amf-app/amf_n1.cpp:4556-4594 | the list built holds only slices requested and subscribed, and one that equals each such slice |
| RegistrationNssai.ServesByCommon | src/amf-app/amf_n1.cpp:4614-4637 | checking that list is checking every slice both requested and subscribed |
| RegistrationNssai.PrintedSliceIsMet | src/amf-app/amf_n1.cpp:4556-4637 | a subscribed slice with a printed SD is wanted by the request for that slice alone, and served where that slice is configured, also without SD |
| RegistrationNssai.OnePlmnDecides | src/amf-app/amf_n1.cpp:4543-4552 | a single PLMN decides iff its MCC, MNC and TAC are those of the TAI |
| RegistrationNssai.InitializeNssai | src/amf-app/amf_n1.cpp:4115-4194 | allowed are all common slices, also appended to the NAS context; rejected the asked ones that are not common, in order |
| RegistrationNssai.AskedSlicesAreSplit | src/amf-app/amf_n1.cpp:4115-4194 | each asked slice is allowed or rejected and not both; it is rejected iff it is not common; nothing else is rejected |
| RegistrationNssai.AcceptContents | src/amf-app/amf_n1.cpp:4123-4190 | field by field: an allowed slice has length 1 without SD and 4 with one; what was requested, or else subscribed, and is not common is rejected with cause 1, and its SD if any |
| RegistrationNssai.AllowedNssaiIsConfigured | src/amf-app/amf_n1.cpp:4115-4145 | end to end, over every orderly run: with the RAN id of the UE's NAS context its own key, or one that leads to a live gNB, each slice of the Allowed NSSAI is stored and configured for one TAC, MCC and MNC |
| IttiTimers.EachTimerInExactlyOnePlace | src/itti/itti.cpp:41-96 | for every interleaving each issued id is in exactly one of: arriving, pending, slot, in flight, fired, removed, dropped |
| IttiTimers.FiresOnceAndNotEarly | src/itti/itti.cpp:57-93 | a timer fires at most once, only if issued, and not before its deadline |
| IttiTimers.TakesEarliest | src/itti/itti.cpp:53-55 | in every run the manager takes the pending timer of the earliest deadline and leaves exactly the others |
| IttiTimers.LeftAloneAllFire | src/itti/itti.cpp:41-96 | left alone at any idle point of any run the manager fires all pending timers in the order of deadlines, each at its deadline or at once where that has passed |
| IttiTimers.FiresAfterRemoveIffInFlight | src/itti/itti.cpp:339-361 | after a successful timer_remove a timer fires iff its message was already built and has since been sent |
| IttiTimers.InsertDropsIffEqualDeadline | src/itti/itti.cpp:326-327 | an insertion is lost iff a pending timer has the same deadline |
| IttiTimers.DroppedOnlyOnEqualDeadline | src/itti/itti.hpp:87-91 | in every run a dropped timer shares its deadline with another issued one |
| IttiTimers.DroppedNeverFires | src/itti/itti.cpp:317-337 | in no run does a dropped timer fire |
| IttiTimers.EqualDeadlineLosesTimer | src/itti/itti.cpp:317-337 | a run in which a timer whose id was returned is dropped and never fires, however the run goes on |
| IttiTimers.LateRemoveDoesNotStopTimer | src/itti/itti.cpp:66-73 | a run in which a timer fires after timer_remove answered RETURNok |
| TimerIds.IdsDistinctIff | src/itti/itti.cpp:134-136 | with reading and writing the counter two steps, and all increments completed, the ids are distinct iff no increment begins inside another |
| IttiTimers.TimerManager.InsertOrdered | src/itti/itti.cpp:317-337 | inserts by deadline, or changes nothing when the deadline is taken |
| IttiTimers.TimerManager.Remove | src/itti/itti.cpp:339-361 | its critical section is the removal step |
| IttiTimers.TimerManager.BeginSetup | src/itti/itti.cpp:317-324 | issues the next id and computes the deadline, or refuses the destination; the call in which the 32-bit id wraps gets the id that means refusal |
| IttiTimers.TimerManager.FinishSetup | src/itti/itti.cpp:325-334 | its critical section is the insertion step |
| IttiTimers.TimerManager.CompareDueTime | src/itti/itti.cpp:57-59 | the slot's timer is due iff its deadline has come |
| IttiTimers.TimerManager.MeasureWait | src/itti/itti.cpp:60-63 | the measuring step before the wait |
| IttiTimers.TimerManager.PutBack | src/itti/itti.cpp:74-83 | a wait that was interrupted puts the slot's timer back, if one is left |
| IttiTimers.TimerManager.BuildTimeout | src/itti/itti.cpp:66-72 | the message is built from the slot as it is then |
| IttiTimers.TimerManager.SendBuilt | src/itti/itti.cpp:73-92 | the message that was built is sent |
| IttiTimers.TimerManager.TakeFirst | src/itti/itti.cpp:48-55 | its critical section moves the timer of the earliest deadline to the slot and leaves the others |
| IttiQueues.QueuesAreFifo | src/itti/itti.cpp:195-298 | in every interleaving what an itti thread received, followed by what is queued, is in order what was pushed for it |
| IttiQueues.ReadyIffAnnounced | src/itti/itti.cpp:144-192 | in every run a task is ready iff it announced itself after it was created and has not ended since |
| IttiQueues.PushesCarryWhatWasSent | src/itti/itti.cpp:195-254 | in every run each push carries the message of the call that made it, to its destination unless that was a broadcast |
| IttiQueues.UnicastOkIffPushed | src/itti/itti.cpp:195-226 | a unicast call says RETURNok iff its message was pushed, once, for its destination alone, which was ready when looked at |
| IttiQueues.BroadcastReachesReadyOnce | src/itti/itti.cpp:229-254 | a broadcast looks at every destination once and pushes once for exactly those ready when looked at |
| IttiQueues.BroadcastReaches | src/itti/itti.cpp:229-254 | whoever is ready whenever the broadcast can look at it is reached |
| IttiQueues.IttiMw.CreateTask | src/itti/itti.cpp:144-173 | its step; true iff the id is valid and not yet created |
| IttiQueues.IttiMw.NotifyTaskReady | src/itti/itti.cpp:176-192 | its step; true iff it was starting |
| IttiQueues.IttiMw.SendMsg | src/itti/itti.cpp:195-226 | an uninterrupted call is the sequence of its steps, and returns what they say |
| IttiQueues.IttiMw.SendBroadcastMsg | src/itti/itti.cpp:229-254 | an uninterrupted broadcast is the sequence of its steps |
| IttiQueues.IttiMw.PollMsg | src/itti/itti.cpp:285-298 | takes the front message, or none |
| NasProtection.RoundTrip | src/amf-app/amf_n1.cpp:2813-2880 | with NIA1 or NIA2 a type-2 message is accepted by the mirrored receiver and gives the plaintext back, exactly under NEA0 and NEA2, with at most three octets more under NEA1 |
| NasProtection.SecurityModeOnTheWire | src/amf-app/amf_n1.cpp:2343-2430 | the Security Mode Command of a fresh context goes out plain with number 0 and the MAC under the new integrity algorithm and key, and the next message is ciphered under the new encryption algorithm and key with count 1 |
| NasProtection.CipheredOnTheWire | src/amf-app/amf_n1.cpp:2824-2850 | every octet of a type-2 message under NIA1 or NIA2, with the MAC over number and ciphered octets |
| NasProtection.NewContextOnTheWire | src/amf-app/amf_n1.cpp:2854-2877 | every octet of a type-3 message: the plain input, and the MAC over the number and it |
| NasProtection.OddAlgorithmsOnTheWire | src/amf-app/amf_n1.cpp:2919-2944 | no integrity gives the input, unknown integrity a zero MAC, unknown encryption the buffer |
| NasProtection.OtherTypesOnTheWire | src/amf-app/amf_n1.cpp:2818-2880 | types 1 and 4 give an empty message and take a number; type 3 for a context in use is refused |
| NasProtection.AcceptedContents | src/amf-app/amf_n1.cpp:429-509 | what an accepted message of each type yields, octet by octet |
| NasProtection.HeaderTypeIs | src/amf-app/amf_n1.cpp:668-700 | the header type is the low half of the second octet up to 4, and 0 beyond; there is none without the discriminator |
| NasProtection.XorByBits | src/amf-app/amf_n1.cpp:2947-3007 | the exclusive or is one where exactly one octet has the bit |
| NasProtection.ReceiptIgnoresHistory | src/amf-app/amf_n1.cpp:452-509 | what becomes of a message does not depend on the messages received before, so an accepted one is accepted again with the same plaintext |
| NasProtection.FitsIff | src/amf-app/amf_n1.cpp:2818-2870 | all accesses stay in the 4096-octet buffer iff the plaintext has at most 4088 octets (type 2 under NEA1) or 4089 |
| NasProtection.NumberIsCallsTaken | src/amf-app/amf_n1.cpp:2829-2879 | for any context, after any calls the number is the first one plus the count of calls not refused, modulo 256; the overflow part and all else stay |
| NasProtection.CountsRepeatIff | src/amf-app/amf_n1.cpp:2829-2879 | two calls use the same count iff a multiple of 256 messages was made from the one to the other |
| NasProtection.NumbersDiffer | src/amf-app/amf_n1.cpp:2829-2879 | of 256 consecutive messages no two use the same count, whatever refused calls lie between them |
| NasProtection.CountRepeats | src/amf-app/amf_n1.cpp:2829-2879 | the 257th message has the count of the first |
| NasProtection.SecurityModeCommandNumber | src/amf-app/amf_n1.cpp:2343-2430 | a Security Mode Command starts the numbers at 0; for a context in use it is refused and takes no number |
| NasProtection.NasSecuCtx.IntegrityProtected | src/amf-app/amf_n1.cpp:2883-2944 | the MAC over the message with its first octet as count; uplink stores that octet |
| NasProtection.NasSecuCtx.CipherProtected | src/amf-app/amf_n1.cpp:2947-3007 | ciphers whole words under NEA1, the message under NEA2, nothing under NEA0, and has no output otherwise |
| NasProtection.NasSecuCtx.StartSecurityModeControl | src/amf-app/amf_n1.cpp:2363-2395 | resets both counts and takes algorithms and keys iff no context was available |
| NasProtection.EncodeNasMessageProtected | src/amf-app/amf_n1.cpp:2813-2880 | the octets are those of the printer for any buffer content, and the context those after one number |
| NasProtection.ReceiveNas | src/amf-app/amf_n1.cpp:452-509 | result and context are those of the parser, for messages of every length |
| Responses.Drain | src/amf-app/amf_n2.cpp:1637-1678 | ends, visits every response once in key order, and computes the verdict |
| Responses.SortedKeysAreSorted | src/amf-app/amf_n2.cpp:1372-1396 | key order is every key once, increasing |
| Responses.VerdictFalseIff | src/amf-app/amf_n2.cpp:1637-1678 | the verdict is false iff an empty reply comes after the last that timed out |
| Responses.PromiseGetsFirstTrigger | src/amf-app/amf_app.cpp:1168-1233 | in every run a promise is fulfilled at most once, with the first value triggered for its id after it was added; never if the id was pending already |
| Responses.TriggerTouchesOneId | src/amf-app/amf_app.cpp:1191-1233 | a trigger changes no other pending promise and no value given before |
| Responses.PromiseRegistry.AddPromise | src/amf-app/amf_app.cpp:1168-1189 | its step of the registry model, which the map and the promises represent; a pending id keeps its promise |
| Responses.PromiseRegistry.TriggerProcessResponse | src/amf-app/amf_app.cpp:1191-1233 | its step of the registry model; fulfils the promise of the id and removes it |
| HexCodec.ConvertStringToHex | src/common/conversions.cpp:157-186 | two lower-case digits per octet |
| HexCodec.OctetStreamToHexStream | src/amf-app/amf_sbi.cpp:66-75 | the same text |
| HexCodec.AsciiToHex | src/common/conversions.cpp:58-83 | writes the leading pairs of digits of the text without white space and nothing else; 1 iff that is all of it |
| HexCodec.AsciiToHexSucceedsIff | src/common/conversions.cpp:58-83 | which is so iff the text without white space is an even run of hex digits |
| HexCodec.DecodeHex | src/common/conversions.cpp:58-83 | decoding what an encoder wrote gives the octets back |
| HexCodec.HexByExample | src/common/conversions.cpp:157-186 | the high half comes first and in lower case; both cases are read |
| HexCodec.MsgStrToMsgHex | src/common/conversions.cpp:245-269 | the identity on all octet strings |
| HexCodec.FormatStringAsHex | src/common/conversions.cpp:189-229 | the octets of the leading pairs of digits |
| HexCodec.HexStrToByte | src/common/comUt.cpp:40-56 | for every length: one octet per pair of characters, unchecked; it leaves its buffers iff the length exceeds 32766 |
| HexCodec.HexStrToByteInverts | src/common/comUt.cpp:40-56 | it too gives the octets back |
| HexCodec.NibbleOfAny | src/common/comUt.cpp:44-53 | what it makes of characters that are no digits |
| HexCodec.ShortIndexBound | src/common/comUt.cpp:41-43 | the index never wraps iff the length is at most 32766 |
| Sqn.PackUnpack | src/amf-app/mysql_db.cpp:66-73 | unpacking keeps the low 48 bits and packing brings them back |
| Sqn.UnpackPack | src/amf-app/mysql_db.cpp:121-123 | unpacking a packed SQN gives its octets back |
| Sqn.VectorNumber | src/amf-app/amf_n1.cpp:1917-1955 | without resynchronisation the i-th vector carries s + 32 i modulo 2^48 |
| Sqn.ReusedIff | src/amf-app/amf_n1.cpp:1917-1955 | two vectors carry the same SQN iff a multiple of 2^43 generations lies between them |
| Sqn.NotReused | src/amf-app/mysql_db.cpp:169-171 | so none is used again while s + 32 n stays within 2^48 |
| Sqn.ResyncNumber | src/amf-app/amf_n1.cpp:1919-1941 | after a resynchronisation from m the first vector carries m + 32 and the next ones follow |
| Sqn.PackInjective | src/amf-app/mysql_db.cpp:121-123 | packed SQNs are equal iff their octets are |
| Sqn.PackIsBigEndian | src/amf-app/mysql_db.cpp:121-123 | the first octet in which two SQNs differ decides which number is greater |
| Sqn.Subscriber.GenerateVectors | src/amf-app/amf_n1.cpp:1903-1955 | the vector made and the number left in the database |
| Guti.TmsiToString | src/common/conversions.cpp:111-120 | the padded text |
| Guti.TmsiStringReadsBack | src/common/conversions.cpp:111-120 | it has length 4 or 260 and reads back as the TMSI |
| Guti.SameKeyIff | src/amf-app/amf_n1.cpp:2555-2557 | two keys are equal iff the TMSIs are and MCC followed by MNC is |
| Guti.KeyInjective | src/amf-app/amf_n1.cpp:2555-2557 | with 3-digit MCC and 2- or 3-digit MNC the key determines MCC, MNC and TMSI |
| Guti.KeyByExample | src/amf-app/amf_n1.cpp:2555-2557 | MCC, MNC, region, set, pointer and padded TMSI, in this order |
| Guti.ShortMccSharesKey | src/amf-app/amf_n1.cpp:2555-2557 | with shorter codes two networks can share a key |
| Guti.UintGenerator.GetUid | src/utils/uint_generator.hpp:54-68 | ends when an id is free and makes a generator step: the first free one, going round from the last |
| Guti.UintGenerator.FreeUid | src/utils/uint_generator.hpp:70-74 | gives one id back |
| Guti.NextIsAfterLast | src/utils/uint_generator.hpp:54-68 | the next id is the number after the last one, around 32 bits, unless that is in use, and then the next one after it |
| Guti.UsedAreAllocated | src/amf-app/amf_app.cpp:906-908 | the TMSIs in use are exactly those allocated so far |
| Guti.TmsisDiffer | src/amf-app/amf_app.cpp:906-908 | no run of allocations makes a TMSI twice |
| Guti.EveryGutiKeepsItsContext | src/amf-app/amf_n1.cpp:2652 | over every run of allocations from the generator, with MCC and MNC of at most three digits, each GUTI still leads to its own context |
| SmfSelection.DiscoverSmf | src/amf-app/amf_sbi.cpp:869-942 | the search ends at the first listed instance that supports the slice or whose service has an empty array; true iff that one throws nothing; what it carries is returned, the rest is left by the instances before it |
| SmfSelection.FoundIsReturned | src/amf-app/amf_sbi.cpp:911-940 | what the instance found brings along is returned: its first address, and of its first service the first port and version |
| SmfSelection.ListedIsSupported | src/amf-app/amf_sbi.cpp:877-897 | a slice is supported iff its SST, or none for 0, is listed with its SD, or none for no SD |
| SmfSelection.AddressOfEarlierInstance | src/amf-app/amf_sbi.cpp:911-940 | an address it does not carry is the last one of an instance that does not support the slice |
| SmfSelection.SelectionUsesUesSlice | src/amf-app/amf_n1.cpp:3306-3307 | the SD text sent to the selection matches an instance iff it lists the UE's own SD |
| NasProtection.AcceptedIffMac | src/amf-app/amf_n1.cpp:452-509 | in one step: types 2 to 4 are accepted iff there is a context and the MAC is right; the uplink number is taken over either way |
| NasProtection.OverrunIff | src/amf-app/amf_n1.cpp:429-509 | in one step: the source reads past the message iff it is protected and has fewer than seven octets, given a context where the type needs one |
| NasProtection.NumberOnTheWire | src/amf-app/amf_n1.cpp:2832-2860 | in one step: the number goes out in octet 6 |
| Handover.ProcessEndsIff | src/ngap/ngap_app/ngap_app.cpp:174-178 | in one step: an event ends the process iff it is an accepted Handover Required, of a UE with a security context, to a gNB id that is not in the map |
| N2Runs.InitialUeTakesOverIff | src/amf-app/amf_n2.cpp:600-640 | in one step: an Initial UE Message changes a context of another association iff its RAN id leads to one |
| GnbLifecycle.ShutdownForgetsWrongGnb | src/ngap/ngap_app/ngap_app.cpp:189-195 | in one step: after Shutdown a gNB id is still found iff it differs from the association id |
| Guti.NextIsUnique | src/utils/uint_generator.hpp:54-68 | in one step: the state of the generator fixes the id and the next state |

## Left out

- NGAP and NAS encoders and decoders, HTTP, SCTP, SQL, configuration files and logging: decoded fields and replies are inputs, and encoding always succeeds.
- The cryptographic functions: the MAC and the key stream are arbitrary functions; key derivation is an input.
- Messages that carry no state: the contents of NG Setup responses and failures, reset acknowledgements, and the NAS transport between gNB and UE.
- Steps of other threads inside a handler of the N2 task other than NG Setup, where it waits for replies or not: such a handler is one step, and what other threads change comes as events between steps.
- Torn reads and writes of the configured PLMN list: NG Setup reads it in one step, and an update, which clears it and appends one by one, writes it in one.
- gNB contexts and PDU session contexts as separately allocated objects: a gNB context is a record under its association id, a session context a position in a list; UE contexts are objects.
- The NAS maps are changed by arbitrary events; the registration, service request and deregistration procedures that change them are not modelled.
- AMF UE NGAP ids above 2^39, which the 40-bit field would make negative; ids are natural numbers.
- The counter `gNB_connected`, which only a log prints, and the statistics of UEs.
- IttiTimers.EachTimerInExactlyOnePlace: the increment of the timer id is one step, so ids are those of runs in which no increment begins inside another (TimerIds has the two steps), and the 32-bit id does not wrap; reads of the slot outside the lock are single steps; the `terminate` flag and promptness of firing are not modelled.
- IttiTimers.FiresOnceAndNotEarly: the same on timer ids.
- TimerIds.IdsDistinctIff: runs that end inside an increment, and the wrap of the 32-bit counter.
- Responses.PromiseGetsFirstTrigger: promise ids are natural numbers; the source cuts a 64-bit id to 32 bits.
- NasProtection.ReceiveNas: what the source finds where it reads past a short message; the model stops there with `Overrun`.
- HexCodec.HexStrToByte: what is overwritten once the index is negative; the model stops there.
- SmfSelection.DiscoverSmf: members of the answer have the types the source expects; on another type it throws.
- IttiTimers.TimerManager.BeginSetup: the call in which the 32-bit id wraps is no step of the timer machine; its contract says which id it gets.
- UeContexts.KeySurvivesReleaseIff: two UEs to which Handover Notify or a new gNB gave one RAN id, where releasing the one also removes entries of the other; KeySurvivesLoopIff has no such condition.
- Sqn.VectorNumber: database failures, in which case no vector is made.
- Reroute through NSSF and NRF, target AMF selection, implicit deregistration, event exposure: dependent on replies that are not part of this model.
- `get_pdu_session_to_be_activated`, `security_select_algorithms`: finite tables.
