# Arduino Cloud Connector: a verified model

The connector is a daemon that takes a board from factory-fresh to connected: it obtains a
device certificate, keeps the credentials on disk across power cuts, holds a session with the
cloud broker, and moves variable values between local apps and the cloud. This project models
that core in Dafny and proves what holds over every input, every run or every interleaving.

`dafny verify dfyconfig.toml` checks all of it.

## How the model is built

- **State machines for runs.** Provisioning, the variable registry, the outbound worker and the
  Cloud FSM are each a function from a state and an event to the next state. A run is a list of
  events. Each rename, each removal, each broker answer, each timer and each lock hand-over is
  an event of its own, so a list of events is one interleaving. A crash is possible after every
  file operation. Invariants are proved step by step and then for every run.
- **Classes for the code.** The Go objects that change in place are classes. `Valid()` of
  `Board`, `Worker` and `Fsm` says that the object is in a reachable state of its machine, so the
  theorems about runs hold of the code. `Valid()` of `Registry` says that what each of its
  subscriptions has been given is the projection of the registry's ghost history; each of its
  methods is one critical section, and the interleaving with pumps is the machine's. `Outlet`
  ties what the worker stores in the registry to its deliveries, `Heap` keeps the heap order, and
  `Subscription` is the plain queue.
- **Reference definitions for formats.** Hand-written encoders are compared with an independent
  definition: a TLV tree with computed lengths for the certificate, a recursive codec for CBOR,
  the sequential resolution of section 4 of RFC 8428 for SenML.
- **Environment.** Disk errors, permissions, network answers, certificate contents, key
  material, the clock, the random draw of the jitter, arrival of messages and cancellation are
  chosen by the environment (events in the machines, `*` and `:|` in the code). The wall clock is
  taken never to go back, and reading or looking up a file to be faithful to what was last written
  or removed. The rounding of
  float64 is a function parameter `fl` and the number behind a float bit pattern a parameter
  `num`. The round trips of times and of published packets ask of `fl` that it keeps the integers
  up to 2^53, those through CBOR bytes that it keeps every number a bit pattern stands for; the
  results about base names and times hold for every `fl`.

| files | models |
|---|---|
| `provisioning_machine`, `_safety`, `_causes`, `_preludes`, `_losses`, `_reports`, `_cleanup`, `_witnesses`, `_service` | provisioning service, keystore, daemon handlers |
| `registry_spec`, `_machine`, `_safety`, `_laws`, `_code` | variable registry and subscriptions |
| `outbound`, `outbound_worker` | pending-value heap and delivery worker |
| `cloud_fsm`, `_safety`, `_things`, `_code`, `inbound` | Cloud FSM and its stores into the registry |
| `der`, `cert_reference`, `cert_code`, `cert_fields`, `cert_response` | certificate reconstruction from the text of the answer |
| `cbor`, `cbor_panics`, `cbor_code` | CBOR codec |
| `senml`, `senml_bases`, `senml_round_trip`, `senml_code`, `wire_senml`, `property_packet` | SenML codecs and published packets |
| `common`, `values`, `names`, `bytes` | shared definitions |

## Where code and documentation disagree

The model follows the code.

- The reconnect jitter is documented as plus or minus ten percent
  (internal/daemon/cloud/fsm.go:75). The code draws from minus 10 to plus 170 percent.
  `JitterRange` gives the range and `TenPercentExactly` says for which draws the comment holds.
- `resolveTime` says that sub-second precision is preserved
  (internal/senml/codec.go:105-108). It tells units apart by magnitude, so a time with a
  fraction of a second before 10^8 seconds comes back as another time. `TimeRestoredExactly`
  gives the exact set.
- The record reader lets the last base name win for every record, where section 4 of RFC 8428
  resolves bases in order. `SameExactly` says when the two readings are the same and
  `AcceptedExactly` which lists both accept.
- A failed prelude is said to leave the board exactly as it was
  (internal/provisioning/provisioning.go:221-223). Credential files removed before the failure
  stay removed, and a remembered failure is forgotten before the first file is touched:
  `RefusalUnchangedExactly`, `RefusedRequestLosesCertificate`.
- A surviving certificate is said not to be mistaken for a working one after a failed discard
  (internal/provisioning/provisioning.go:354-357). The failure is remembered in memory only and
  forgotten at the next request. After a restart the daemon runs with the certificate
  (`FailedDiscardReachesRun`); without one, a request refused at its marker makes the service
  report it as provisioned (`RefusedRequestReportsProvisioned`). The exact causes are
  `UnmarkedUnactivatedExactly` and `ReportsUnactivatedExactly`.
- A certificate under a live marker is said never to have been activated
  (internal/provisioning/provisioning.go:271-272). A request cut between its marker and its first
  removal resumes over the active one: `CutRequestResumesActivated`, with
  `ResumesActivatedExactly` for the exact cause.
- The loss of an activated certificate is put down to the round trip of its activation
  (internal/provisioning/provisioning.go:431-437). A cut or half-refused request leads to it too:
  `ActivatedDiscardedExactly`.
- A credential wipe cut between its first two removals lets the next certificate stand beside
  the previous device id, and a second cut carries the pair into Run:
  `InterruptedWipeReachesRun`, with `WrongPairExactly` for the exact cause.
- Any JSON value may be stored (docs/openapi.yaml:477-484). One that SenML has no type for keeps
  the whole property it belongs to from being published: `OneAttributeBlocksTheRest`.
- The rebuilt certificate is meant to be the one the CA signed
  (test/e2e/internal/pki/ca.go:170-172). For the years 1950 to 1999, which the CA accepts, it is
  not: `Reconstruct`, `CertExactly`. An answer for a device id that starts with a space is
  refused: `AnswerGivesTheCertificateExactly`.
- The CBOR reader returns an error for what it cannot read
  (test/e2e/internal/wire/cbor.go:201-302). A map keyed by a byte string, an array or a map makes
  it panic: `PanicsExactly`, `ByteStringKeyPanics`.

## Model

| member | source | states |
|---|---|---|
| `ProvisioningCauses.OnlyActivatedCertificatesRun` | internal/provisioning/provisioning.go:228-370 | In every run, with crashes and every other failure allowed, if no removal of the certificate file returns an error: credentials without a marker are credentials that were on disk when provision/complete was carried out, at every moment; the daemon is in Run only with such a certificate |
| `ProvisioningCauses.UnmarkedUnactivatedExactly` | internal/provisioning/provisioning.go:339-370 | At every moment of every run: credentials stand without a marker and unactivated if and only if a removal of an unactivated certificate failed, the next thing to happen was the removal of the marker, and no request has written a marker since |
| `ProvisioningCauses.ActivationExactly` | internal/provisioning/provisioning.go:339-370 | A whole run keeps "no marker means activated" if and only if no discard fails in that way |
| `ProvisioningCauses.RunsUnactivatedExactly` | internal/daemon/daemon.go:489-498 | In Run both credentials are on disk, and the certificate is unactivated if and only if the same cause stands |
| `ProvisioningCauses.ReportsUnactivatedExactly` | internal/provisioning/provisioning.go:160-174 | The service reports Provisioned over an unactivated certificate if and only if that cause stands and nothing remembers it: the failed discard was a request's, or since then the process ended or a request entered `BeginProvisioning` |
| `ProvisioningReports.ReportedExactly` | internal/provisioning/provisioning.go:160-174 | The four answers over whole runs: Error if and only if this process gave an activation up and no request came since, or the attempt whose marker was last written is ten minutes old; Provisioning if and only if neither, and such an attempt is younger; otherwise Provisioned or Unprovisioned by the two credential files |
| `ProvisioningReports.RemembersExactly` | internal/provisioning/provisioning.go:339-370 | A failure is remembered if and only if this process gave an activation up and no request has entered the prelude since |
| `ProvisioningReports.MarkerExactly` | internal/provisioning/provisioning.go:228-232 | The marker on disk carries a time if and only if the last write of it, not removed since, was at that time |
| `ProvisioningWitnesses.FailedDiscardReachesRun` | internal/provisioning/provisioning.go:352-365 | A concrete run: the discard fails, the marker goes, and after a restart the daemon runs with a certificate that was never activated |
| `ProvisioningWitnesses.RefusedRequestReportsProvisioned` | internal/provisioning/provisioning.go:228-232 | A concrete run without a restart: the discard fails, the next request is refused at its marker, and the service reports the unactivated certificate as provisioned |
| `ProvisioningLosses.ResumesActivatedExactly` | internal/provisioning/provisioning.go:271-283 | An attempt resumes over a certificate already activated if and only if a marker was left over it since: by a lost answer, by the end of the activating attempt, or by a request cut before its first removal or unable to take its marker back |
| `ProvisioningLosses.ActivatedDiscardedExactly` | internal/provisioning/provisioning.go:423-461 | An activated certificate is discarded, without a request for it, if and only if a marker was left over it like that and the window closed on an attempt under that marker |
| `ProvisioningLosses.ActivatedSurvives` | internal/provisioning/provisioning.go:423-437 | Without a lost answer, a crash or a failed marker removal it never is |
| `ProvisioningWitnesses.CrashAfterActivationDiscards` | internal/provisioning/provisioning.go:423-437 | A concrete run: a power loss between activation and the removal of the marker, and the activated certificate is gone |
| `ProvisioningWitnesses.CutRequestResumesActivated` | internal/provisioning/provisioning.go:228-236 | A concrete run: a request cut after its marker resumes as an attempt to activate the active certificate it was to replace |
| `ProvisioningLosses.EveryCertificateHasAFreshKey` | internal/keystore/keystore.go:182-192 | Whenever a certificate is stored, the same attempt removed the old key and generated the key the certificate is for |
| `ProvisioningCleanUp.GivingUpLeavesNothing` | internal/provisioning/provisioning.go:350-363 | An attempt given up leaves a credential file only if its removal, or that of a file before it, failed; the marker is left if and only if its own removal failed; the failure is remembered |
| `ProvisioningCleanUp.MarkerInRunExactly` | internal/provisioning/provisioning.go:342-348 | In Run a marker stands if and only if the removal after an activation failed and nothing has touched the marker since |
| `ProvisioningCleanUp.ActivationLeadsToRun` | internal/daemon/daemon.go:511-542 | After an activation the daemon goes on to Run and stays there until it ends, cannot read its files or takes a request |
| `ProvisioningCleanUp.RefusedExactly` | internal/provisioning/provisioning.go:228-246 | A request is refused if and only if a file operation of its own failed; a request granted leaves a marker, no credentials and exactly the organization it named |
| `ProvisioningCleanUp.RefusalTakesMarkerBack` | internal/provisioning/provisioning.go:234-244 | A refused request that wrote its marker has tried to take it back |
| `ProvisioningSafety.CertificateMatchesKey` | internal/provisioning/provisioning.go:273-311 | In every run, with crashes and failed writes or removals anywhere, a stored certificate and device id mean the certificate is for the private key now on disk |
| `ProvisioningCauses.DeviceIdBelongsToCertificate` | internal/keystore/keystore.go:169-177 | If no wipe is cut between certificate and device id, then at every moment a stored device id is the one issued with the stored certificate |
| `ProvisioningCauses.WrongPairExactly` | internal/provisioning/provisioning.go:296-311 | At every moment of every run: the stored id is not the stored certificate's if and only if a wipe was cut before the id, the id file is untouched since, and a certificate issued with another id was stored beside it and is still there |
| `ProvisioningCauses.IdMatchesExactly` | internal/provisioning/provisioning.go:296-311 | A whole run pairs rightly if and only if no certificate is stored over an id that a cut wipe left |
| `ProvisioningCauses.RunsMispairedExactly` | internal/daemon/daemon.go:560-601 | In Run the ids differ if and only if that cause stands |
| `ProvisioningWitnesses.InterruptedWipeReachesRun` | internal/provisioning/provisioning.go:265-316 | A concrete run: a wipe and an attempt are each cut by a power loss, the attempt resumes, and the daemon runs with an activated certificate under another device's id |
| `ProvisioningSafety.CredentialsAreWipedOnlyWhenDue` | internal/provisioning/provisioning.go:339-370 | Outside a fresh prelude a credential file disappears only ten minutes or more after the time on a marker that is still there; a crash, a cancellation, a refusal or the expiry itself changes no file |
| `ProvisioningSafety.CloudRunsOverFixedFiles` | internal/daemon/daemon.go:560-601 | No file changes while the cloud FSM is alive, and a snapshot with a cloud part says Run |
| `ProvisioningSafety.EveryRequestAnsweredOnce` | internal/daemon/daemon.go:511-554 | Replies are a prefix of accepted requests, at most one is outstanding, none while waiting or running, and success is answered only over a marker and wiped credentials |
| `ProvisioningService.PausesFitWindow` | internal/provisioning/provisioning.go:438-461 | Pauses of 2 s doubling to 30 s add up to 2, 6, 14 and then 30(k - 3) seconds, less than ten minutes if and only if there are fewer than 23 |
| `ProvisioningService.Board.SubmitCsrWithRetry` | internal/provisioning/provisioning.go:395-416 | At most 24 calls, and the pauses between them have been slept; each way out with the state it leaves; the disk is untouched |
| `ProvisioningService.Board.CompleteWithRetry` | internal/provisioning/provisioning.go:438-461 | At most 24 calls, and the pauses between them have been slept; success means the certificate on disk was activated; expiry means the window is over; the disk is untouched |
| `ProvisioningService.Board.CompletePhase` | internal/provisioning/provisioning.go:339-370 | Success keeps the credentials and has them activated; giving up happens only past the deadline, is remembered, and leaves the files of a wipe that may have stopped after any of them; cancellation leaves every file |
| `ProvisioningService.Board.IssuePhase` | internal/provisioning/provisioning.go:286-311 | Success leaves both credentials, the device id being the certificate's subject |
| `ProvisioningService.Board.RunAttempt` | internal/provisioning/provisioning.go:265-316 | Success means activated credentials for the key on disk; an attempt resumed over stored credentials changes at most the marker on success, nothing when cancelled or refused, and otherwise discards past the window |
| `ProvisioningService.Board.BeginProvisioning` | internal/provisioning/provisioning.go:228-246 | The whole state after every outcome: the remembered failure forgotten, and the disk emptied under a fresh marker or as the step that failed and the rollback left it |
| `ProvisioningPreludes.RefusalUnchangedExactly` | internal/provisioning/provisioning.go:219-246 | In every run, from the acceptance of a request to its refusal: the disk and the remembered failure are unchanged if and only if no failure was remembered, no credential file that was there was removed, and the marker, if written, is back to what it was |
| `ProvisioningPreludes.ProvisionedSurvivesExactly` | internal/provisioning/provisioning.go:219-246 | On a provisioned board: if and only if the certificate was not removed and a written marker was |
| `ProvisioningWitnesses.RefusedRequestLosesCertificate` | internal/provisioning/provisioning.go:233-236 | A concrete run: a request refused because the device id could not be removed has cost a running daemon its activated certificate |
| `ProvisioningService.Board.GetState` | internal/provisioning/provisioning.go:160-174 | Each of the four answers if and only if its condition on memory, marker age and files holds, written out; Provisioned over an unactivated certificate exactly in the case of `ReportsUnactivatedExactly`, for every log of operations |
| `ProvisioningService.Board.WipeCloudCredentials` | internal/keystore/keystore.go:169-177 | All three files go; after a failure exactly the files before it, in order, are gone |
| `ProvisioningService.Board.RotateCloudKey` | internal/keystore/keystore.go:182-192 | Only the key changes, and success leaves one |
| `ProvisioningService.Board.New` | internal/keystore/keystore.go:57-80 | A key that exists is kept; nothing but the key is written |
| `ProvisioningService.Board.PickPostInternetState` | internal/daemon/daemon.go:489-498 | Run if and only if no failure is remembered, no marker stands and both credentials do; a resumed attempt if and only if no failure is remembered and the marker is younger than ten minutes; Run only for an activated certificate when no certificate removal failed |
| `ProvisioningService.Board.BeginReprovision` | internal/daemon/daemon.go:547-554 | The caller gets exactly one answer, whatever the prelude did, and no failure stays remembered |
| `ProvisioningService.Board.RunProvisioning` | internal/daemon/daemon.go:511-542 | Leaves only for Run with an activated certificate, or because the process ends |
| `ProvisioningService.Board.RunRun` | internal/daemon/daemon.go:560-601 | The cloud FSM has returned and is detached; to Provisioning only for the first request, answered once; only then is the disk touched; the process ends only when no request is left |
| `ProvisioningService.Board.Run` | internal/daemon/daemon.go:436-452 | Every execution of the chained handlers is a run of the machine, with its guarantees |
| `RegistrySafety.DeliveryIsTheProjection` | internal/variables/variables.go:137-186 | In every interleaving, frames delivered, in the pump's hand, queued and still to be enqueued by the lock holder are exactly the frames the registry's history owes the subscription, in order |
| `RegistryAgreement.OthersWritesArrive` | internal/variables/variables.go:273-357 | By kind, in every interleaving: the updates a subscription is given are, in order, exactly the writes to its variable by the cloud and by other apps, and the last values exactly those announced for it |
| `RegistrySafety.NothingAfterStop` | internal/variables/variables.go:179-186 | A stopped subscription is out of the registry and its queue only shrinks, by its own pump |
| `RegistrySafety.NoLostWakeup` | internal/variables/variables.go:137-176 | A waiting pump with a non-empty queue has its wake token unless the enqueuer is just before its signal |
| `RegistrySafety.NoPendingAfterAnnounce` | internal/variables/variables.go:319-357 | Flags fall one by one as frames are handed over; once an announcement it lived through has handed a registered subscription its frames, it waits for no verdict |
| `RegistrySafety.EveryPendingIsReached` | internal/variables/variables.go:325-356 | The two passes put a frame on the list of every waiting subscription, and the first to come takes its flag down |
| `RegistrySafety.AnnouncementSettles` | internal/variables/variables.go:319-357 | From every reachable state the announcement can run to its end, and then no subscription that was registered waits |
| `RegistrySafety.OneVerdictPerLife` | internal/variables/variables.go:319-396 | Counting the first frame, a subscription is told at most once that a value is missing |
| `RegistrySafety.DrainedSubscriberAgrees` | internal/variables/variables.go:273-396 | A drained subscription holds the last store that was not its own app's write since it subscribed, which is the board's value unless the very last store was such a write |
| `RegistryAgreement.DrainedBystanderAgrees` | internal/variables/variables.go:273-396 | A drained subscription of an app that has not written the variable since holds the board's value, whatever the interleaving |
| `RegistryLaws.ProjectionByKind` | internal/variables/variables.go:273-357 | The same split of the projection for every history |
| `RegistryLaws.AnnounceReaches` | internal/variables/variables.go:319-357 | Subscribers of an announced variable get last-value frames; of one not announced only those still waiting, one missing verdict |
| `RegistrySafety.StepKeeps` | internal/variables/variables.go:137-410 | The invariant behind these holds across every step of every goroutine |
| `RegistryCode.Registry.SetValue` | internal/variables/variables.go:273-290 | The value is stored under its time, or the present one when it has none; the queue of every subscription to the variable grows by exactly one update frame, unless its app made the write, and no other queue changes; what every subscription has been given stays the projection of the history |
| `RegistryCode.Registry.ApplyLastValues` | internal/variables/variables.go:319-357 | All values are stored, each queue grows by its hits or by one missing verdict, nothing stays pending, and the projection is kept |
| `RegistryCode.Registry.Subscribe` | internal/variables/variables.go:380-396 | The first frame is the stored last value with its time, or else "missing" on a steady cloud and "unavailable" before; only the last waits for a verdict; both follow from the history |
| `RegistryCode.Registry.Unsubscribe` | internal/variables/variables.go:399-410 | The subscription leaves its list and is stopped; the others are untouched |
| `RegistryCode.Registry.WithPrefix` | internal/variables/variables.go:234-245 | Exactly the set variables under the prefix, once each, sorted by name |
| `RegistryCode.Subscription.Enqueue` | internal/variables/variables.go:137-145 | The frame is appended and the wake token set |
| `RegistryCode.Subscription.Pump` | internal/variables/variables.go:149-176 | Whatever is enqueued meanwhile, the reader gets the queue in order, nothing lost or repeated; when the pump waits nothing is queued, and it returns only once stopped, losing at most the frame in its hand beside what is still queued |
| `RegistryCode.Registry.DrainedAgrees` | internal/variables/variables.go:273-396 | A drained subscription object holds the last store that was not its own app's write, the board's value unless the very last store was one |
| `RegistryCode.Registry.BystanderAgrees` | internal/variables/variables.go:273-396 | A drained subscription object whose app has not written the variable holds the board's value |
| `RegistryCode.Registry.OthersWritesGiven` | internal/variables/variables.go:273-357 | Read or queued, the updates are the writes of others and the last values the announcements, in order |
| `OutboundMachine.NothingLostOrRepeated` | internal/daemon/daemon.go:299-342 | Accepted values are the channel, the heap and the deliveries, as multisets |
| `OutboundMachine.NeverEarly` | internal/daemon/daemon.go:299-342 | No value is delivered before its timestamp plus 33 ms |
| `OutboundMachine.OrderExactly` | internal/daemon/daemon.go:299-342 | Delivery is by timestamp, then by sequence number, if and only if no value reached the worker behind one already gone, which cannot happen while values arrive inside their window |
| `OutboundMachine.LateValueGoesOutOfOrder` | internal/daemon/daemon.go:299-342 | For any two values a run in which the earlier one, received late, goes out second |
| `OutboundHeap.RootIsLeast` | internal/daemon/daemon.go:347-366 | In a heap-ordered list the first item is least by (timestamp, sequence) |
| `OutboundHeap.SiftUpStep` | internal/daemon/daemon.go:347-366 | One swap with the parent moves the only violation up |
| `OutboundHeap.SiftDownStep` | internal/daemon/daemon.go:347-366 | One swap with the lesser child moves the only violation down |
| `OutboundHeap.Heap.Push` | internal/daemon/daemon.go:358-358 | The heap order is kept and the items grow by exactly the new one |
| `OutboundHeap.Heap.Pop` | internal/daemon/daemon.go:360-366 | A least item leaves, the rest stays as a multiset, the order is kept |
| `OutboundWorker.Worker.RunOutbound` | internal/daemon/daemon.go:299-342 | Every execution of the loop is a run of the machine: values conserved, order as stated; whatever others store in between, the worker's own operations in the registry's history are the deliveries, in order |
| `OutboundWorker.Worker.DeliverHead` | internal/daemon/daemon.go:310-322 | The due head leaves the heap and is stored once, under its time, or the present one when it has none, and its app |
| `OutboundWorker.Worker.Round` | internal/daemon/daemon.go:299-342 | One turn delivers the head if and only if it is 33 ms old |
| `OutboundWorker.Worker.EnqueueVariable` | internal/daemon/daemon.go:257-289 | Without a steady cloud the value is refused; with one of the 256 slots free it is queued unless its request was cancelled; with none it is not; a value not queued leaves no trace |
| `OutboundWorker.Outlet.PublishVariable` | internal/daemon/daemon.go:385-409 | Something is published if and only if the cloud is ready and SenML can carry the property; whoever decodes it finds the value under its name |
| `CloudFsmSafety.ThingPublishedExactly` | internal/daemon/cloud/fsm.go:327-563 | In every reachable state a thing id is published if and only if the state is SyncingLastValues or Steady |
| `CloudFsmThings.PublishedThingExactly` | internal/daemon/cloud/fsm.go:327-563 | At every moment of every life of the FSM: a thing id is published if and only if the cloud assigned it and since then the FSM has neither reconnected nor stopped, and the cloud has neither detached it nor, in Steady, announced another id or none |
| `CloudFsmSafety.CommandsFollowProtocol` | internal/daemon/cloud/fsm.go:282-551 | Commands attempted on a connection are a prefix of Device.begin, at most one DeviceNetConfig, then groups of Thing.begin followed by LastValues.begin, each of the latter with a thing assigned |
| `CloudFsmSafety.Regroup` | internal/daemon/cloud/fsm.go:327-468 | Every sequence the FSM's own check allows splits into those groups |
| `CloudFsmSafety.SyncAppliesOnce` | internal/daemon/cloud/fsm.go:393-468 | Syncing asks one to ten times and performs no registry operation; the timer gives up if and only if ten requests were made; every way into Steady has performed exactly one operation, an announcement of what was decoded, of nothing when the answer was empty, unreadable or missing |
| `Inbound.AnnouncedExactlyOnce` | internal/daemon/cloud/fsm.go:615-644 | Every exit of the last-values path announces once, of nothing for an empty or unreadable payload; a live payload never announces |
| `ApplyProperties.ApplyPayload` | internal/daemon/cloud/fsm.go:615-644 | For every payload the registry's history grows by exactly those operations: one announcement, or one write per decoded variable, or nothing for an unreadable live payload, each with the decoded name, value and time; after last values nobody waits |
| `ApplyProperties.WriteEach` | internal/daemon/cloud/fsm.go:630-636 | One write per value, in order, without an origin |
| `CloudFsmSafety.ReconnectDelay` | internal/daemon/cloud/fsm.go:242-263 | After k failed connects in a row the delay is at least min(1.8^k, 270) s and at most 810 s, for every draw |
| `CloudFsmSafety.SuccessRestartsBackoff` | internal/daemon/cloud/fsm.go:265-280 | With no failed connect since a success the delay is one second |
| `CloudFsmSafety.JitterRange` | internal/daemon/cloud/fsm.go:646-657 | The delay is doubled, capped at 300 s, and becomes 0.9 + 0.2 * draw times that: between 0.9 and 2.7 times, and both ends occur |
| `CloudFsmSafety.TenPercentExactly` | internal/daemon/cloud/fsm.go:75-75 | The documented ten percent holds if and only if the draw is 0 or 1 |
| `CloudFsmSafety.ThingRetryDelay` | internal/daemon/cloud/fsm.go:659-665 | Thing.begin is repeated after min(2 * 2^k, 32) s before an answer and min(20 * 2^k, 1280) s after one without a thing |
| `CloudFsmCode.Fsm.RunReconnecting` | internal/daemon/cloud/fsm.go:242-263 | The event queue is empty afterwards and the delay is within its bounds |
| `CloudFsmCode.Fsm.RunConnecting` | internal/daemon/cloud/fsm.go:265-280 | A failed connect ends the FSM if it was cancelled and is counted otherwise; success resets the back-off and starts an empty command list |
| `CloudFsmCode.Fsm.RunAnnouncingDevice` | internal/daemon/cloud/fsm.go:282-325 | Goes on only after both the subscription and Device.begin; the commands attempted on each way out |
| `CloudFsmCode.Fsm.RunAwaitingThingID` | internal/daemon/cloud/fsm.go:327-391 | Goes on to syncing only with a thing id and fresh sync counters |
| `CloudFsmCode.Fsm.TakeWhileAwaiting` | internal/daemon/cloud/fsm.go:364-389 | What each event does: an assignment starts syncing with that id, the first answer without one starts the slow phase of 20 s to 1280 s, a lost connection reconnects, and every other event changes nothing |
| `CloudFsmCode.Fsm.RunSyncingLastValues` | internal/daemon/cloud/fsm.go:393-468 | Reaches Steady only after one to ten requests and one announcement in the registry, with no subscription left waiting; every other way out leaves the registry alone |
| `CloudFsmCode.Fsm.TakeWhileSyncing` | internal/daemon/cloud/fsm.go:447-466 | What each event does: the answer leads to Steady, a detachment withdraws the thing, a lost connection reconnects, and every other event changes nothing |
| `CloudFsmCode.Fsm.RetrySync` | internal/daemon/cloud/fsm.go:425-446 | The timer gives up, announcing nothing, if and only if ten requests were made, and otherwise asks again |
| `CloudFsmCode.Fsm.Arrivals` | internal/daemon/cloud/fsm.go:565-573 | A message is queued behind the others if fewer than 64 wait, and dropped otherwise |
| `CloudFsmCode.Fsm.TakeAnswer` | internal/daemon/cloud/fsm.go:452-457 | The answer's payload, whatever it holds, is decoded and announced once |
| `CloudFsmCode.Fsm.TakeWhileSteady` | internal/daemon/cloud/fsm.go:470-551 | What each event does: a lost connection reconnects; a detachment or an empty id withdraws the thing and awaits another; another id is published at once and its last values are asked for, or the connection is given up; property payloads are stored as decoded, last values as one announcement; every other event changes nothing |
| `CloudFsmCode.Fsm.Run` | internal/daemon/cloud/fsm.go:228-240 | Every execution of the chained state functions keeps the thing-id law and the protocol |
| `CertFields.Reconstruct` | internal/provisioning-api/compressed_cert.go:94-112 | For all fields of the checked lengths and every date: where the CA issued a certificate the rebuilt bytes are that certificate if and only if the year is 2000 or later; from 2000 to 9968 a strict DER reader, which also checks version, algorithms, object identifiers and digits, finds the serial, the issuer of the Arduino CA letter by letter, the device id as subject, the date and the date 31 years on, key, key identifier and both signature scalars |
| `CertResponse.AnswerGivesTheCertificateExactly` | test/e2e/internal/pki/ca.go:272-281 | From the CA's certificate through the text of its answer to the daemon's bytes: the same certificate if and only if the device id does not start with a space and the year is 2000 or later |
| `CertResponse.ResponseIsRead` | internal/provisioning-api/compressed_cert.go:57-94 | The daemon reads every such answer back to the CA's fields, unless the device id starts with white space; then it refuses it |
| `CertResponse.ReconstructDeviceCert` | internal/provisioning-api/compressed_cert.go:57-115 | For every body: accepted if and only if its six fields have their lengths and characters; each field is decoded from its place; where the CA signed a certificate for the parsed fields, the bytes are that certificate if and only if the date text starts with a digit from 2 on |
| `CertResponse.AcceptedExactly` | internal/provisioning-api/compressed_cert.go:57-94 | An answer is accepted if and only if it has six fields, of 36, 40, any, 32, 64 and 64 characters, hexadecimal but for the first and the date, and numbers stand where the date has them |
| `CertResponse.DateFromText` | internal/provisioning-api/compressed_cert.go:122-138 | Year, month, day and hour are the digits at characters 0, 5, 8 and 11 |
| `CertResponse.HexText` | internal/provisioning-api/compressed_cert.go:73-88 | Each pair of characters is one byte, small and capital letters alike; small ones are written |
| `CertResponse.YearFromText` | internal/provisioning-api/compressed_cert.go:122-138 | The parsed year is 2000 or later if and only if the text starts with a digit from 2 on, signs included |
| `CertResponse.IsoIsRead` | internal/provisioning-api/compressed_cert.go:122-138 | Every date of two-digit fields and years 0 to 9999 in the CA's layout is parsed back |
| `CertResponse.HexRoundTrip` | internal/provisioning-api/compressed_cert.go:73-88 | Hexadecimal text decodes to the bytes it was written for |
| `CertResponse.SplitOfJoin` | internal/provisioning-api/compressed_cert.go:59-62 | Fields without a bar, joined by bars, split back |
| `CertFields.CaSignsExactly` | test/e2e/internal/pki/devicecert.go:88-169 | For a real date the CA issues if and only if the device id is printable, the day is not 29 February and the year is 1950 to 9968 |
| `CertCode.BuildCert` | internal/provisioning-api/compressed_cert.go:184-195 | For every date of two-digit fields and years 0 to 9999 the hand-computed encoding is the nested, length-computing TLV encoding of the same certificate if and only if the year is 2000 to 9968 |
| `CertCode.CertExactly` | internal/provisioning-api/compressed_cert.go:184-247 | The same as a law of the bytes, without the code |
| `CertCode.ValidityExactly` | internal/provisioning-api/compressed_cert.go:216-226 | The hand-written Validity has the length of the reference, and is it if and only if the year is 2000 to 9968 |
| `CertCode.BuildTbs` | internal/provisioning-api/compressed_cert.go:198-247 | The bytes to be signed: the reference encoding everywhere but in the Validity, and there too in that range |
| `CertCode.DateExactly` | internal/provisioning-api/compressed_cert.go:337-358 | A date of two-digit fields is written as DER if and only if its year is 2000 to 9999 |
| `CertReference.NotAfterIsADate` | test/e2e/internal/pki/devicecert.go:88-102 | A certificate ends 31 years after it begins, which is a calendar day unless it began on 29 February |
| `CertCode.AppendSerialNumber` | internal/provisioning-api/compressed_cert.go:318-333 | The stripped, padded bytes are the DER INTEGER of the serial if and only if its content has fewer than 128 bytes, as every 16-byte serial's has |
| `CertCode.DerInteger` | internal/provisioning-api/compressed_cert.go:421-433 | The content bytes are those of the shortest non-negative INTEGER |
| `CertCode.AppendSignature` | internal/provisioning-api/compressed_cert.go:403-417 | The signature block is the BIT STRING of the two-INTEGER SEQUENCE |
| `CertCode.NameLength` | internal/provisioning-api/compressed_cert.go:282-290 | The length added up by hand is that of the encoded RDNs if and only if no value is longer than 118 bytes |
| `CertCode.NameIsWritten` | internal/provisioning-api/compressed_cert.go:294-314 | The six emits write one RDN per present attribute, in order, if and only if no value is longer than 118 bytes |
| `CertCode.AppendValidity` | internal/provisioning-api/compressed_cert.go:216-226 | Both times under the hand-computed length, for any date; the Validity SEQUENCE for years 2000 to 9968 |
| `CertCode.AuthorityKeyIdSet` | internal/provisioning-api/compressed_cert.go:391-398 | True if and only if some byte is not zero |
| `Der.ParseOfEnc` | test/e2e/internal/pki/devicecert.go:106-194 | A strict reader of definite, minimal lengths returns the tree that was written |
| `Der.IntRoundTrip` | internal/provisioning-api/compressed_cert.go:421-433 | Every number comes back from its shortest INTEGER content |
| `Der.IntContentShape` | internal/provisioning-api/compressed_cert.go:421-433 | The content is non-negative, without a superfluous zero, and reads as the number |
| `Cbor.RoundTrip` | test/e2e/internal/wire/cbor.go:144-333 | Decoding an encoding followed by any bytes returns the value, an unsigned that fits int64 as int64, and those bytes |
| `Cbor.EncodingIsPrefixFree` | test/e2e/internal/wire/cbor.go:184-193 | No encoding is a proper prefix of another, and equal encodings are equal values up to that normalisation |
| `Cbor.HeadIsShortest` | test/e2e/internal/wire/cbor.go:83-99 | No head the decoder accepts for an argument is shorter than the encoder's (section 4.2.1 of RFC 8949) |
| `Cbor.HeadRoundTrip` | test/e2e/internal/wire/cbor.go:306-333 | Every head comes back as its major type, argument and remainder |
| `Cbor.KindIsWritten` | test/e2e/internal/wire/cbor.go:144-177 | The first byte written is the one section 3.1 of RFC 8949 gives the kind: 0x00 on for unsigned, 0x20 negative, 0x40 bytes, 0x60 text, 0x80 arrays, 0xC0 tags, and the simple values |
| `Cbor.KindIsRead` | test/e2e/internal/wire/cbor.go:201-302 | Whatever is decoded is of the kind of its first byte in the same table |
| `Cbor.HeadLayout` | test/e2e/internal/wire/cbor.go:83-99 | The head of every argument, byte by byte, big-endian |
| `Cbor.SmallNumber` | test/e2e/internal/wire/cbor.go:103-109 | Numbers from -24 to 23 are one byte and back |
| `Cbor.ShortString` | test/e2e/internal/wire/cbor.go:127-135 | Text and byte strings below 24 bytes follow one byte with kind and length, and come back |
| `CborCode.AppendValue` | test/e2e/internal/wire/cbor.go:144-177 | Succeeds if and only if the value is encodable, and then appends its encoding, whose first byte is of the value's kind in the table of RFC 8949 |
| `CborCode.ReadValue` | test/e2e/internal/wire/cbor.go:201-302 | The reader's loops compute the recursive decoding, errors and panics included; what is read is of the kind its first byte announces |
| `CborPanics.PanicsExactly` | test/e2e/internal/wire/cbor.go:273-291 | On the bytes of a well-formed value the reader panics if and only if some map in it has a key that is, or is a tag around, a byte string, an array or a map |
| `CborPanics.KeyPanicsExactly` | test/e2e/internal/wire/cbor.go:273-291 | A one-pair map of written values panics the reader if and only if the key is, under any tags, a byte string or an array |
| `CborPanics.WrittenIsSafe` | test/e2e/internal/wire/cbor.go:144-177 | Nothing the writer writes makes the reader panic |
| `CborPanics.ByteStringKeyPanics` | test/e2e/internal/wire/cbor.go:288-288 | Every one-pair map keyed by a byte string makes it panic |
| `SenmlRoundTrip.RoundTripExactly` | internal/senml/codec.go:49-225 | For distinct names and times that are absent or whole microseconds up to 2^53, decoding what was encoded gives the name-sorted batch, values and times exact, if and only if the batch is not empty, every name is not empty, and every time is absent, a whole second after 1970, or later than 10^8 s |
| `SenmlRoundTrip.TimeRestoredExactly` | internal/senml/codec.go:109-225 | The same for one time through `encodeTime` and `resolveTime` |
| `SenmlRoundTrip.UnitsByMagnitude` | internal/senml/codec.go:109-127 | A whole number is seconds up to 10^11, milliseconds up to 10^14, microseconds up to 10^17 and nanoseconds above |
| `SenmlRoundTrip.OffsetIsExact` | internal/senml/codec.go:144-156 | Subtracting the base time and adding it back stays within the integers a float64 keeps and is exact |
| `SenmlRoundTrip.SentReadsTheSame` | internal/senml/codec.go:134-164 | Everything the daemon sends means the same to a reader following section 4 of RFC 8428 |
| `SenmlBases.SameExactly` | internal/senml/codec.go:62-88 | For every list and every rounding, "last base wins" and sequential resolution give the same result if and only if the daemon rejects the list, or at every value the name in force is the last one and the times in force and last give the same rounded sum |
| `SenmlBases.SettledMeansSame` | internal/senml/codec.go:62-88 | With settled bases both readers also accept the same lists |
| `SenmlBases.BasesFirstMeansSame` | test/e2e/internal/wire/senml.go:64-117 | Bases on the first record only: both readers accept the same lists and read the same |
| `SenmlBases.AcceptedExactly` | test/e2e/internal/wire/senml.go:64-117 | The sequential reader accepts a list if and only if the daemon does and every value without a name of its own stands under a non-empty base name in force |
| `SenmlBases.SameListsAccepted` | internal/senml/record.go:165-197 | The readers part on a list if and only if the daemon accepts a value that does not |
| `SenmlBases.NoEmptyBaseCovers` | internal/senml/record.go:165-197 | That needs a record that names the base empty |
| `SenmlBases.RoundingHidesBases` | internal/senml/codec.go:75-81 | Any rounding that gives two base times the same sum hides their difference from both readers |
| `SenmlBases.LaterBaseRenames` | test/e2e/internal/wire/senml.go:53-57 | A list on which the two readers give a record different names |
| `SenmlBases.EmptyBaseIsIgnored` | internal/senml/record.go:165-197 | A list that one reader accepts and the other rejects |
| `SenmlCode.Validate` | internal/senml/record.go:165-197 | The loop accepts exactly the lists whose records each have at most one value field and, with a value, a resolved name |
| `SenmlCode.ValidExactly` | internal/senml/record.go:165-197 | A list is valid if and only if every record has at most one value field and, if it has one or a sum, a name of its own or under the last base name up to it |
| `SenmlCode.BaseNameIsLast` | internal/senml/codec.go:62-74 | The base name is the last one that is not empty, and empty if none is |
| `SenmlCode.ToVariables` | internal/senml/codec.go:62-88 | The two passes compute the readings under the last bases, times resolved |
| `SenmlCode.ToRecords` | internal/senml/codec.go:168-183 | Fails if and only if some value has no SenML type; otherwise the records of the batch, sorted |
| `SenmlCode.RebaseTimes` | internal/senml/codec.go:144-156 | In place, the first record gets the least time and every time becomes an offset from it |
| `SenmlCode.RebasedIsLeast` | internal/senml/codec.go:144-156 | The base is the least time present, every time becomes its rounded offset from it, and nothing else changes; without times nothing does |
| `SenmlCode.EncodeBatch` | internal/senml/codec.go:134-164 | No bytes for no variables, an error for an unsupported value, else the rebased records |
| `WireSenml.BytesRoundTrip` | test/e2e/internal/wire/senml.go:205-237 | A list is written if and only if every entry has a name and a SenML type; its bytes then decode, without a panic, to the list in stable name order, values and times unchanged |
| `WireSenml.FlatPayloadReadsTheSame` | test/e2e/internal/wire/senml.go:189-237 | The daemon's reader finds in the bytes of such a list exactly what was meant |
| `WireSenml.EncodeSenML` | test/e2e/internal/wire/senml.go:205-237 | The buffer grown record by record is the CBOR array of two- or three-pair maps, sorted, or an error |
| `WireSenml.DecodeSenML` | test/e2e/internal/wire/senml.go:64-194 | For every byte string: panics if and only if the CBOR reader does; otherwise the loop with its running bases gives the sequential readings of the records, or refuses malformed CBOR, mistyped fields, several values or a missing name |
| `WireSenml.RecordRoundTrip` | test/e2e/internal/wire/senml.go:216-235 | One written record decodes, before any trailer, to the map of its pairs |
| `WireSenml.RecordLayout` | test/e2e/internal/wire/senml.go:216-235 | A record byte by byte: a map of two or three pairs, the name under 0, the value under 2, 3 or 4 by its type, the time under 6 |
| `WireSenml.LabelsRead` | test/e2e/internal/wire/senml.go:122-194 | Which label each field of a record is read from |
| `WireSenml.RecordIsParsed` | test/e2e/internal/wire/senml.go:122-194 | Label lookups on that map give the entry's name, value and time and no base |
| `Names.BelowExactly` | internal/senml/codec.go:168-183 | One name is below another if and only if it is a proper prefix of it or the first character that differs is smaller |
| `PropertyPacket.Publish` | internal/daemon/daemon.go:385-433 | Something is sent if and only if everything travelling has a SenML type; whoever decodes it then gets, for a non-empty name, the complete property: every attribute set in the registry once, sorted, with the value just set under its own name |
| `PropertyPacket.StoredDecides` | internal/daemon/daemon.go:385-433 | Once stored, the value itself and its stored siblings decide |
| `PropertyPacket.OneAttributeBlocksTheRest` | internal/senml/codec.go:201-202 | In every registry and property: while one attribute holds null, an array or an object, no other attribute can be sent |
| `PropertyPacket.Packet` | internal/daemon/daemon.go:415-433 | A plain variable or an attribute without stored siblings travels alone; otherwise exactly the stored siblings travel |
| `PropertyPacket.PacketIsWholeProperty` | internal/daemon/daemon.go:415-433 | Written out: whatever travels under another name is stored there, with that value, and shares the part before the colon; everything stored under that part travels; the value just set travels in its own place |
| `PropertyPacket.OwnValueTravels` | internal/daemon/daemon.go:415-433 | A value just stored is in its own packet |

## Left out

- Network, TLS, JWT, HTTP and MQTT clients, REST handlers and configuration: they appear only as answers the environment chooses.
- ECDSA, SHA-256, PEM and CSR parsing: keys are numbers in the provisioning machine and given bytes in the certificate.
- CertResponse.ReconstructDeviceCert: white space around the answer is ASCII white space, not the further characters of Unicode.
- CertCode.CertExactly: the comparison with the reference covers non-negative date fields of at most two digits and years 0 to 9999; a date text with signs can give others, for which the CA signs nothing.
- CBOR bytes of the daemon's own SenML records: the fxamacker codec is taken as exact on typed records.
- Cbor.RoundTrip: maps are not among its values, as the source's `appendValue` writes none (`WireSenml.RecordRoundTrip` covers the maps that are written), and are kept as the list of pairs; floats are bit patterns, so the widening of half and single floats is not modelled.
- Nanosecond timestamps: a float64 does not hold them; `SenmlRoundTrip.RoundTripExactly` starts at microseconds. Conversion of times beyond the int64 range is not modelled.
- CloudFsmSafety.ReconnectDelay: exact arithmetic, without the rounding of durations to nanoseconds.
- CloudFsmCode.Fsm.RunSyncingLastValues: other goroutines' registry operations between two of its statements; their interleaving is in `RegistrySafety`.
- Liveness: no theorem says that a reconnect or a delivery eventually happens; a full event channel drops messages, as in the source.
- Persistent broker sessions and messages queued across a thing reassignment.
- The provisioning key pair and file modes: they show only as a refusal at start-up.
- OutboundWorker.Worker.EnqueueVariable: a sender that waits for a slot is a sender that tries again.
- Logging, and the end-to-end suite apart from its CBOR reader and writer, its SenML reader and its certificate encoder.
