# Appia protocols in Dafny

This project models the protocol sessions of an Appia-based protocol library
as pure state machines and proves properties of them in Dafny. Every session
is a record of state plus one function per event handler. A handler returns a
`Step`: the new state, the events it sends or delivers, and whether the Java
handler ends by raising an exception. State changes made before such a raise
are kept. An Appia `Message` is a sequence of header items whose last element
is the top of the stack.

The modelled sessions are:

- **Authenticated echo broadcast and the Byzantine consistent channel.** This covers:
  - the tutorial echo broadcast instance (`EchoBroadcast`, `EchoBroadcastProperties`, `EchoBroadcastStaleRound`) and its deliberately faulty subclass (`ByzantineEcho`);
  - the older `src/core` instance (`CoreEcho`, `CoreEchoProperties`);
  - the echo event envelope (`EchoEvent`);
  - the two signature layers (`TutorialSigning`, `CoreSigning`) over an ideal signature scheme (`Crypto`);
  - the three consistent channels over them (`ConsistentChannel`, `TutorialChannel`, `CoreChannel`, `ByzantineChannel`).
- **Shared data structures.** These are the process set (`ProcessSet`), membership views (`MembershipView`), the view-synchrony message record (`ViewSyncMsg`) and the TRB proposal (`TRBProposal`).
- **Causal order.** Three variants are modelled:
  - with vector clocks (`WaitingCO`);
  - by carrying the past (`NoWaitingCO`, with the shared list codec in `PastList`);
  - by carrying the past with acknowledgement-based collection (`GCPastCO`).
- **Broadcasts.** These are all-ack and majority-ack uniform reliable broadcast (`AllAckURB`, `MajorityAckURB`, sharing `UrbEntry`), lazy reliable broadcast (`LazyRB`) and eager probabilistic broadcast (`EagerPB`).
- **Shared memory.** These are the (1,N) and (N,N) atomic registers (`Register1NAR`, `RegisterNNAR`, sharing `SharedRegister`).
- **Agreement.** This covers:
  - hierarchical and uniform hierarchical consensus (`HierarchicalConsensus`, `UniformConsensus`);
  - non-blocking atomic commit (`Nbac`);
  - terminating reliable broadcast (`Trb`);
  - consensus-based group membership (`ConsensusMembership`);
  - view synchrony over TRB (`ViewSync`).
- **Utility layers.** These are the TCP-based perfect failure detector (`TcpBasedPFD`), the delay filter (`Delay`) and the bounded print filter (`BoundedPrint`).

`Common`, `Stack` and `Wire` hold the shared vocabulary:
- optional values and addresses;
- Java `int` wrap-around where a hash needs it;
- the two message-stack item types.

Where a handler depends on something outside the session, the model takes it as a parameter. Examples are serialising a message to bytes, the random draws of the gossip layer, and the iteration order of a Java hash set.

Where the code and its description disagree, the model follows the code. Where the code is evidently wrong, the model keeps both versions: the as-written definition with a lemma that exhibits the defect, and a corrected definition with the intended property proved (see "## Findings").

For the echo broadcast instances and the process set, the session model follows the code as written. The corrected definition stands beside it. For the gossip layer, both consensus variants and the three causal-order sessions, the session's `Handle` uses the corrected definition and `HandleAsWritten` keeps the code as written.

## Model

| member | source | states |
|---|---|---|
| EchoEvent.PushValues | appia-tutorial/src/irdp/protocols/tutorialDA/events/EchoBroadcastEvent.java:52-58 | pushing succeeds exactly when the text is not null, adds four values on top of the message and leaves the rest untouched; popping them gives the event back |
| EchoEvent.PopValues | appia-tutorial/src/irdp/protocols/tutorialDA/events/EchoBroadcastEvent.java:60-66 | a successful pop takes exactly four values off the top, yields a non-null text, and the old message is the new one with that header on top |
| EchoEvent.PopThenPush | appia-tutorial/src/irdp/protocols/tutorialDA/events/EchoBroadcastEvent.java:52-66 | pushing the popped values restores the message |
| TutorialSigning.AttachSignature | appia-tutorial/src/irdp/protocols/tutorialDA/signing/SignatureSession.java:189-200 | the message gains the sender's alias and then a signature that verifies under that alias over the message with the alias |
| TutorialSigning.VerifySignature | appia-tutorial/src/irdp/protocols/tutorialDA/signing/SignatureSession.java:249-270 | true exactly when the alias is in the trust store and the signature verifies over the message with the alias pushed; the message is left as it was |
| TutorialSigning.VerifySignatureAndGo | appia-tutorial/src/irdp/protocols/tutorialDA/signing/SignatureSession.java:209-224 | a stack without two strings on top raises; otherwise the message is passed up exactly when the alias is a string, trusted, and its signature verifies; what goes up is the message without the alias, with the signature back on top only when pushSignature is set |
| TutorialSigning.Handle | appia-tutorial/src/irdp/protocols/tutorialDA/signing/SignatureSession.java:168-180 | events that are not sendable are not passed on; sendable events going down are signed; going up they are passed on exactly when verification passes and raise exactly when two strings do not pop; every event keeps its direction |
| TutorialSigning.SignThenVerify | appia-tutorial/src/irdp/protocols/tutorialDA/signing/SignatureSession.java:189-224 | a message signed by a sender the receiver trusts comes out of the receiver unchanged (with the signature when it pushes signatures) |
| TutorialSigning.PassedUpWasSigned | appia-tutorial/src/irdp/protocols/tutorialDA/signing/SignatureSession.java:209-270 | whatever is passed up with its signature carries exactly the signature its alias makes over the bytes below it |
| CoreSigning.Receive | src/core/net/sf/appia/protocols/signing/SignatureSession.java:198-221 | a stack without two strings on top raises; otherwise the message is passed up exactly when the alias is a string, trusted, and the signature verifies over the message with the alias, and it goes up with alias and signature back in place |
| CoreSigning.Send | src/core/net/sf/appia/protocols/signing/SignatureSession.java:188-197 | the message gains the alias, then a signature that verifies under it |
| CoreSigning.SendThenReceive | src/core/net/sf/appia/protocols/signing/SignatureSession.java:188-221 | a message signed by a trusted sender passes up exactly as sent |
| CoreSigning.Handle | src/core/net/sf/appia/protocols/signing/SignatureSession.java:181-224 | events that are not sendable are not passed on; sendable events going down are signed; going up they are passed on unchanged exactly when verification passes and raise exactly when two strings do not pop |
| EchoBroadcast.Init | appia-tutorial/src/irdp/protocols/tutorialDA/echobroadcast/EchoBroadcastSession.java:81-110 | a fresh instance has sequence number 0, no flags set, no echoed SENDs or collected ECHOs, and one empty signature slot per process |
| EchoBroadcast.CertificateSlots | appia-tutorial/src/irdp/protocols/tutorialDA/echobroadcast/EchoBroadcastSession.java:331-343 | the FINAL carries one slot per rank, holding that rank's stored signature or the BOTTOM marker |
| EchoBroadcast.Decode | appia-tutorial/src/irdp/protocols/tutorialDA/echobroadcast/EchoBroadcastSession.java:207-215 | unpacking succeeds only on a message with a signature string and a full header on top, and yields a non-null text |
| EchoBroadcast.DecodeBuilt | appia-tutorial/src/irdp/protocols/tutorialDA/echobroadcast/EchoBroadcastSession.java:207-215 | every message built from a header and a signature unpacks back to exactly that header and signature |
| EchoBroadcast.Broadcast | appia-tutorial/src/irdp/protocols/tutorialDA/echobroadcast/EchoBroadcastSession.java:165-197 | opens round sequenceNumber + 1 with an empty ECHO bucket, leaves the other buckets alone, and multicasts the SEND to all sockets |
| EchoBroadcast.SendEchoReply | appia-tutorial/src/irdp/protocols/tutorialDA/echobroadcast/EchoBroadcastSession.java:226-269 | a SEND of an already answered sequence number changes nothing; otherwise one ECHO of its number and text goes to its source and the number is recorded as answered |
| EchoBroadcast.AtMostOneEchoPerRound | appia-tutorial/src/irdp/protocols/tutorialDA/echobroadcast/EchoBroadcastSession.java:226-269 | between resets, two SENDs of the same sequence number produce at most one ECHO |
| EchoBroadcast.FindQuorum | appia-tutorial/src/irdp/protocols/tutorialDA/echobroadcast/EchoBroadcastSession.java:286-314 | the search returns a collected text occurring more than the threshold, or None only when no text of the bucket does |
| EchoBroadcast.FindQuorumComplete | appia-tutorial/src/irdp/protocols/tutorialDA/echobroadcast/EchoBroadcastSession.java:283-314 | the search succeeds exactly when some text has more than floor((N+F)/2) ECHOs |
| EchoBroadcast.QuorumUnique | appia-tutorial/src/irdp/protocols/tutorialDA/echobroadcast/EchoBroadcastSession.java:283-300 | with at most N ECHOs in a bucket, two texts that each exceed floor((N+F)/2) are the same text |
| EchoBroadcast.RecordEcho | appia-tutorial/src/irdp/protocols/tutorialDA/echobroadcast/EchoBroadcastSession.java:271-283 | an unknown sender raises before any change; otherwise its signature is stored at its rank and the text appended to its round's bucket, and a missing bucket raises after the store |
| EchoBroadcast.SendFinal | appia-tutorial/src/irdp/protocols/tutorialDA/echobroadcast/EchoBroadcastSession.java:318-349 | sets sentFinal and multicasts one FINAL carrying the triggering ECHO's number and text and one signature slot per rank |
| EchoBroadcast.CollectEchoReply | appia-tutorial/src/irdp/protocols/tutorialDA/echobroadcast/EchoBroadcastSession.java:271-316 | once sentFinal is set nothing is sent; a FINAL goes out only the first time, for a text that has a quorum in the ECHO's round |
| EchoBroadcast.CountVerifiedIsSigners | appia-tutorial/src/irdp/protocols/tutorialDA/echobroadcast/EchoBroadcastSession.java:362-375 | skipping BOTTOM slots and verifying the rest counts exactly the ranks whose slot holds their ECHO signature over this number and text |
| EchoBroadcast.DeliverFinal | appia-tutorial/src/irdp/protocols/tutorialDA/echobroadcast/EchoBroadcastSession.java:351-390 | raises exactly when fewer than N strings are on top, keeping the slots already filled from rank N-1 down; otherwise the slots overwrite sigmas, and a delivery happens only once and only when more than floor((N+F)/2) slots verify |
| EchoBroadcast.Receive | appia-tutorial/src/irdp/protocols/tutorialDA/echobroadcast/EchoBroadcastSession.java:207-224 | an undecodable message raises without changes; ECHO, FINAL and SEND go to their handlers; the round number and group never change and sentFinal is never cleared |
| EchoBroadcast.Reset | appia-tutorial/src/irdp/protocols/tutorialDA/echobroadcast/EchoBroadcastSession.java:406-415 | clears the three flags, the signature slots and the record of answered SENDs, and keeps the sequence number and collected ECHOs |
| EchoBroadcastProperties.ReceiveKeepsOpen | appia-tutorial/src/irdp/protocols/tutorialDA/echobroadcast/EchoBroadcastSession.java:207-316 | receiving keeps the invariant that an open round (no FINAL sent) has no text with a quorum |
| EchoBroadcastProperties.BroadcastKeepsOpen | appia-tutorial/src/irdp/protocols/tutorialDA/echobroadcast/EchoBroadcastSession.java:165-197 | broadcasting keeps that invariant |
| EchoBroadcastProperties.FinalCarriesQuorumText | appia-tutorial/src/irdp/protocols/tutorialDA/echobroadcast/EchoBroadcastSession.java:283-316 | when the invariant holds and an ECHO completes a quorum, the FINAL's text is the only text with a quorum |
| EchoBroadcastProperties.AtMostOneFinalAndDelivery | appia-tutorial/src/irdp/protocols/tutorialDA/echobroadcast/EchoBroadcastSession.java:271-390 | between resets, whatever messages arrive, an instance sends at most one FINAL and delivers at most once |
| EchoBroadcastProperties.EchoFillsSlot | appia-tutorial/src/irdp/protocols/tutorialDA/echobroadcast/EchoBroadcastSession.java:226-283 | the ECHO a correct rank i sends, signed and checked by the signature layers, fills slot i of the initiator with its signature over the ECHO body |
| EchoBroadcastProperties.FinalArrives | appia-tutorial/src/irdp/protocols/tutorialDA/echobroadcast/EchoBroadcastSession.java:318-361 | the FINAL an initiator sends reaches deliverFinal with its slots intact after both signature layers |
| EchoBroadcastProperties.CertifiedFinalIsDelivered | appia-tutorial/src/irdp/protocols/tutorialDA/echobroadcast/EchoBroadcastSession.java:318-390 | validity: a FINAL whose slots hold more than floor((N+F)/2) correct ECHO signatures is delivered by a receiver that trusts the aliases and has not delivered yet |
| EchoBroadcastProperties.CertifiedSlotsDelivered | appia-tutorial/src/irdp/protocols/tutorialDA/echobroadcast/EchoBroadcastSession.java:351-390 | slots holding more than floor((N+F)/2) ECHO signatures for the FINAL's own number and text are delivered by a receiver that has not delivered |
| EchoBroadcastProperties.CertificatesOverlap | appia-tutorial/src/irdp/protocols/tutorialDA/echobroadcast/EchoBroadcastSession.java:362-377 | two deliverable certificates for one round and different texts share at least F+1 ranks that signed ECHOs of both texts |
| EchoBroadcastProperties.ResetForgetsEchoes | appia-tutorial/src/irdp/protocols/tutorialDA/echobroadcast/EchoBroadcastSession.java:406-415 | a SEND answered before a reset is answered again after it, with the same ECHO |
| EchoBroadcastStaleRound.CollectEchoReplyCurrentRound | appia-tutorial/src/irdp/protocols/tutorialDA/echobroadcast/EchoBroadcastSession.java:271-316 | the corrected collection: an ECHO of a round other than the current one changes nothing, and a FINAL carries the text with the quorum |
| EchoBroadcastStaleRound.QuorumSurvivesAppend | appia-tutorial/src/irdp/protocols/tutorialDA/echobroadcast/EchoBroadcastSession.java:277-283 | appending an ECHO never destroys a quorum already in the bucket |
| EchoBroadcastStaleRound.FinishedRoundSurvivesReset | appia-tutorial/src/irdp/protocols/tutorialDA/echobroadcast/EchoBroadcastSession.java:165-170 | a finished round keeps its ECHOs across reset and the next broadcast, while sentFinal is cleared |
| EchoBroadcastStaleRound.LateEchoBlocksCurrentRound | appia-tutorial/src/irdp/protocols/tutorialDA/echobroadcast/EchoBroadcastSession.java:271-316 | as written, a late ECHO of a finished round sends a FINAL for that round carrying the late text and sets sentFinal, so the current round can no longer send its FINAL |
| EchoBroadcastStaleRound.LateEchoIgnoredWhenCurrentRoundOnly | appia-tutorial/src/irdp/protocols/tutorialDA/echobroadcast/EchoBroadcastSession.java:271-316 | corrected, the same late ECHO changes nothing and the ECHO completing the current round's quorum sends that round's FINAL |
| ByzantineEcho.SendAll | appia-tutorial/src/irdp/protocols/tutorialDA/echobroadcast/ByzantineEchoBroadcastSession.java:47-91 | the loop visits every slot of the raw process array in rank order and sends one SEND per slot, to that slot's socket, until the first iteration that finds the test case, the slot or the text to push null; that iteration raises, after the SENDs to lower ranks went out, and the loop raises exactly when such a slot exists |
| ByzantineEcho.Broadcast | appia-tutorial/src/irdp/protocols/tutorialDA/echobroadcast/ByzantineEchoBroadcastSession.java:41-92 | opens the next round with an empty bucket exactly as the correct instance does, then unicasts the SENDs, raising exactly when some slot's iteration finds a null |
| ByzantineEcho.BroadcastWithoutTest3IsCorrect | appia-tutorial/src/irdp/protocols/tutorialDA/echobroadcast/ByzantineEchoBroadcastSession.java:41-92 | outside test3, with a text, the faulty SENDs are the correct multicast split into unicasts, in the same order; the faulty loop raises exactly when some slot is empty, after the SENDs to the slots before it, while the correct multicast does not raise |
| ByzantineEcho.Test3Equivocates | appia-tutorial/src/irdp/protocols/tutorialDA/echobroadcast/ByzantineEchoBroadcastSession.java:47-83 | under test3 slots with different process numbers receive SENDs with different texts; the loop raises exactly when some slot is empty and otherwise sends to every slot |
| ByzantineEcho.SendEchoReply | appia-tutorial/src/irdp/protocols/tutorialDA/echobroadcast/ByzantineEchoBroadcastSession.java:96-138 | the once-per-sequence-number rule of the correct instance; sentEcho is set before the test case is read, so a null test case raises after that |
| ByzantineEcho.Test1OnlyFakesText | appia-tutorial/src/irdp/protocols/tutorialDA/echobroadcast/ByzantineEchoBroadcastSession.java:120-123 | test1 changes only the ECHO's text; sequence number, destination and the once-only rule stay |
| ByzantineEcho.SendFinal | appia-tutorial/src/irdp/protocols/tutorialDA/echobroadcast/ByzantineEchoBroadcastSession.java:141-181 | sentFinal is set before the test case is read; under test2 the FINAL carries the fake text over the recorded slots |
| ByzantineEcho.CollectEchoReply | appia-tutorial/src/irdp/protocols/tutorialDA/echobroadcast/EchoBroadcastSession.java:271-316 | the inherited collection calling the faulty sendFinal: never a second FINAL, and outside test2 the same result as the correct instance |
| ByzantineEcho.Receive | appia-tutorial/src/irdp/protocols/tutorialDA/echobroadcast/EchoBroadcastSession.java:207-224 | the inherited dispatch: sentFinal and delivered are never cleared, and outside test1 and test2 the result is the correct instance's |
| ByzantineEcho.Test2FinalRejected | appia-tutorial/src/irdp/protocols/tutorialDA/echobroadcast/ByzantineEchoBroadcastSession.java:155-160 | a test2 FINAL is not delivered by a correct receiver when its slots hold only BOTTOM or ECHO signatures over real texts |
| CoreEcho.DeliveryThresholdAtLeastEcho | src/core/net/sf/appia/protocols/echobroadcast/EchoBroadcastSession.java:297-426 | the delivery bound ceil((N+F)/2) is never below the echo bound (N+F)/2, and is above it for odd N+F |
| CoreEcho.Init | src/core/net/sf/appia/protocols/echobroadcast/EchoBroadcastSession.java:41-108 | a fresh instance has N = 0, F = 0, sequence number 0, no flags and empty alias and signature slots |
| CoreEcho.PopPairs | src/core/net/sf/appia/protocols/echobroadcast/EchoBroadcastSession.java:392-398 | the pairs popped are, in order, the signature then alias pairs from the top of the stack |
| CoreEcho.PairsMirrored | src/core/net/sf/appia/protocols/echobroadcast/EchoBroadcastSession.java:341-398 | popping the pushed pairs gives them back matched, in mirrored rank order |
| CoreEcho.CertificatePairs | src/core/net/sf/appia/protocols/echobroadcast/EchoBroadcastSession.java:341-378 | the FINAL carries one (alias, signature) pair per rank, BOTTOM where none was stored |
| CoreEcho.Broadcast | src/core/net/sf/appia/protocols/echobroadcast/EchoBroadcastSession.java:168-208 | opens round sequenceNumber + 1 with an empty bucket, sets N to the membership size, changes nothing else and multicasts the SEND |
| CoreEcho.SendEchoReply | src/core/net/sf/appia/protocols/echobroadcast/EchoBroadcastSession.java:242-283 | a SEND of an answered sequence number changes nothing; otherwise one ECHO of its number and text goes back to its source and the number is recorded |
| CoreEcho.SendFinal | src/core/net/sf/appia/protocols/echobroadcast/EchoBroadcastSession.java:341-378 | sets sentFinal and multicasts the ECHO's number and text over one pair per rank |
| CoreEcho.CollectEchoReply | src/core/net/sf/appia/protocols/echobroadcast/EchoBroadcastSession.java:285-339 | an unknown sender raises without change; otherwise the pair is stored at its rank and the text appended, and a FINAL goes out only once and only for a text above (N+F)/2 |
| CoreEcho.VerifySignature | src/core/net/sf/appia/protocols/echobroadcast/EchoBroadcastSession.java:443-462 | true exactly when the alias is a trusted alias and the signature verifies over the message with the alias pushed; the message comes back unchanged |
| CoreEcho.CountVerified | src/core/net/sf/appia/protocols/echobroadcast/EchoBroadcastSession.java:407-422 | the counter never exceeds the number of slots |
| CoreEcho.DeliverFinal | src/core/net/sf/appia/protocols/echobroadcast/EchoBroadcastSession.java:380-441 | raises exactly when fewer than 2N strings are on top, keeping every signature and alias popped before the stack ran out (an odd last signature beside the slot's old alias); otherwise a delivery happens once, when more than ceil((N+F)/2) slots verify |
| CoreEcho.Decode | src/core/net/sf/appia/protocols/echobroadcast/EchoBroadcastSession.java:220-232 | unpacking needs a signature and an alias string above a full header and yields a non-null text |
| CoreEcho.DecodeBuilt | src/core/net/sf/appia/protocols/echobroadcast/EchoBroadcastSession.java:220-232 | a message built from a header, an alias and a signature unpacks back to exactly those |
| CoreEcho.Receive | src/core/net/sf/appia/protocols/echobroadcast/EchoBroadcastSession.java:220-240 | an undecodable message raises without change; N, the round number and the group never change and sentFinal is never cleared |
| CoreEcho.Reset | src/core/net/sf/appia/protocols/echobroadcast/EchoBroadcastSession.java:464-471 | clears the three flags and both slot arrays, and keeps the sequence number, N, the buckets and the record of answered SENDs |
| CoreEchoProperties.CertificateArrives | src/core/net/sf/appia/protocols/echobroadcast/EchoBroadcastSession.java:341-398 | the FINAL an initiator sends reaches a receiver's deliverFinal with the initiator's pairs in mirrored rank order |
| CoreEchoProperties.ReceiveAtMostOnce | src/core/net/sf/appia/protocols/echobroadcast/EchoBroadcastSession.java:285-441 | a FINAL goes out only when sentFinal was clear and sets it; a delivery happens only when delivered was clear and sets it |
| CoreEchoProperties.FinalUnpacks | src/core/net/sf/appia/protocols/echobroadcast/EchoBroadcastSession.java:392-405 | the pairs of a FINAL pop back off the stack, mirrored, above the untouched rest |
| CoreEchoProperties.RepeatedSignatureDelivered | src/core/net/sf/appia/protocols/echobroadcast/EchoBroadcastSession.java:407-426 | as written, one trusted alias's ECHO signature repeated in every slot is counted once per slot, so a FINAL signed by one process is delivered |
| CoreEchoProperties.NonInitiatorDeliversOnOneSignature | src/core/net/sf/appia/protocols/echobroadcast/EchoBroadcastSession.java:41-42 | as written, an instance that never broadcast keeps N = 0, so one verifying slot among BOTTOMs delivers |
| CoreEchoProperties.ReceivingKeepsNZero | src/core/net/sf/appia/protocols/echobroadcast/EchoBroadcastSession.java:168-175 | receiving and resetting never set N; only a broadcast does |
| CoreEchoProperties.VerifiedAliasSigned | src/core/net/sf/appia/protocols/echobroadcast/EchoBroadcastSession.java:407-422 | each alias counted by the corrected count is trusted and some slot holds its own signature over the ECHO |
| CoreEchoProperties.VerifiedAliasesAtMostSlots | src/core/net/sf/appia/protocols/echobroadcast/EchoBroadcastSession.java:407-422 | counting aliases once never exceeds counting verifying slots |
| CoreEchoProperties.DeliverFinalCorrected | src/core/net/sf/appia/protocols/echobroadcast/EchoBroadcastSession.java:380-441 | the corrected delivery raises exactly when the pairs are missing; when they are present, an undelivered instance delivers whenever more than (N+F+1)/2 distinct trusted aliases verify, and only then; the bound comes from the membership size and the state otherwise changes as written |
| CoreEchoProperties.OneSignerNeverDelivers | src/core/net/sf/appia/protocols/echobroadcast/EchoBroadcastSession.java:407-426 | with the corrected count, a certificate whose verifying slots all carry one alias never delivers |
| CoreEchoProperties.CorrectedDeliversOnlyIfAsWritten | src/core/net/sf/appia/protocols/echobroadcast/EchoBroadcastSession.java:407-426 | the corrected count only ever withholds deliveries the code as written makes |
| ConsistentChannel.Init | appia-tutorial/src/irdp/protocols/tutorialDA/byzantineconsistentchannel/ByzantineConsistentChannelSession.java:81-97 | a fresh channel is ready, not wired, with every counter 0 and one fresh instance per rank |
| ConsistentChannel.ChannelInit | appia-tutorial/src/irdp/protocols/tutorialDA/byzantineconsistentchannel/ByzantineConsistentChannelSession.java:126-217 | the first ChannelInit wires the child channels and is passed on; only the wired flag changes |
| ConsistentChannel.WiringOnce | appia-tutorial/src/irdp/protocols/tutorialDA/byzantineconsistentchannel/ByzantineConsistentChannelSession.java:126-130 | a second ChannelInit changes nothing and is not passed on |
| ConsistentChannel.OpenBroadcast | appia-tutorial/src/irdp/protocols/tutorialDA/byzantineconsistentchannel/ByzantineConsistentChannelSession.java:223-257 | a broadcast is blocked exactly when the channel is not ready; otherwise ready is cleared and the local instance is prepared and given the event |
| ConsistentChannel.SelfNumber | appia-tutorial/src/irdp/protocols/tutorialDA/byzantineconsistentchannel/ByzantineConsistentChannelSession.java:282 | the local process's number is read only when the self rank is in range and its slot is filled |
| ConsistentChannel.Deliver | appia-tutorial/src/irdp/protocols/tutorialDA/byzantineconsistentchannel/ByzantineConsistentChannelSession.java:267-285 | an unknown sender raises without change; otherwise the sender's counter goes up by one, its instance is reset, and ready is set again only when the sender is the local process |
| ConsistentChannel.GateHoldsUntilOwnDelivery | appia-tutorial/src/irdp/protocols/tutorialDA/byzantineconsistentchannel/ByzantineConsistentChannelSession.java:223-285 | after a broadcast a second one is blocked; another sender's delivery keeps it blocked and the local process's own delivery opens the gate |
| ConsistentChannel.RunCounts | appia-tutorial/src/irdp/protocols/tutorialDA/byzantineconsistentchannel/ByzantineConsistentChannelSession.java:274-275 | after a run of deliveries each counter is its start value plus the deliveries from its rank |
| ConsistentChannel.RunLabel | appia-tutorial/src/irdp/protocols/tutorialDA/byzantineconsistentchannel/ByzantineConsistentChannelSession.java:274-287 | from a fresh channel, each sender's deliveries are labelled 0, 1, 2, … in order |
| TutorialChannel.Init | appia-tutorial/src/irdp/protocols/tutorialDA/byzantineconsistentchannel/ByzantineConsistentChannelSession.java:75-97 | every instance is initialised over the same process set and the channel starts ready |
| TutorialChannel.Broadcast | appia-tutorial/src/irdp/protocols/tutorialDA/byzantineconsistentchannel/ByzantineConsistentChannelSession.java:223-257 | the gate; when open, the local instance is reset before it is given the event |
| TutorialChannel.LabelText | appia-tutorial/src/irdp/protocols/tutorialDA/byzantineconsistentchannel/ByzantineConsistentChannelSession.java:287 | the delivered text is the original text (or "null") followed by the label suffix |
| TutorialChannel.LabelsDistinguish | appia-tutorial/src/irdp/protocols/tutorialDA/byzantineconsistentchannel/ByzantineConsistentChannelSession.java:287 | two deliveries of one text with different counters get different texts |
| TutorialChannel.Deliver | appia-tutorial/src/irdp/protocols/tutorialDA/byzantineconsistentchannel/ByzantineConsistentChannelSession.java:267-296 | counts and resets as the shared channel does and passes up the event with its labelled text unless the delivery raised |
| TutorialChannel.LabelsCountPerSender | appia-tutorial/src/irdp/protocols/tutorialDA/byzantineconsistentchannel/ByzantineConsistentChannelSession.java:274-287 | from a fresh channel, the delivery at position i is labelled with the number of earlier deliveries from the same sender |
| CoreChannel.Init | src/core/net/sf/appia/protocols/byzantineconsistentchannel/ByzantineConsistentChannelSession.java:96-120 | the instances are initialised from the process file and the channel starts ready |
| CoreChannel.Broadcast | src/core/net/sf/appia/protocols/byzantineconsistentchannel/ByzantineConsistentChannelSession.java:269-304 | the gate; the instances and counters are left as they are |
| CoreChannel.Deliver | src/core/net/sf/appia/protocols/byzantineconsistentchannel/ByzantineConsistentChannelSession.java:314-342 | counts and resets as the shared channel does and passes the event up unchanged |
| CoreChannel.DeliverResetsSenderOnly | src/core/net/sf/appia/protocols/byzantineconsistentchannel/ByzantineConsistentChannelSession.java:314-325 | after a delivery the sender's instance has its flags and slots cleared but keeps its record of answered SENDs, and no other instance changes |
| ByzantineChannel.Init | appia-tutorial/src/irdp/protocols/tutorialDA/byzantineconsistentchannel/BByzantineConsistentChannelSession.java:100-123 | the channel starts ready with every instance fresh over the same process set, and is exactly the tutorial channel's start whatever test case it is given |
| ByzantineChannel.Broadcast | appia-tutorial/src/irdp/protocols/tutorialDA/byzantineconsistentchannel/BByzantineConsistentChannelSession.java:270-303 | the gate only closes `ready`; the tutorial channel's outcome on the same channel is this one with the local instance reset |
| ByzantineChannel.Deliver | appia-tutorial/src/irdp/protocols/tutorialDA/byzantineconsistentchannel/BByzantineConsistentChannelSession.java:313-340 | the channel after a delivery is the tutorial channel's, and the event goes up unchanged exactly when the tutorial channel would pass up its labelled copy |
| ByzantineChannel.RunResets | appia-tutorial/src/irdp/protocols/tutorialDA/byzantineconsistentchannel/BByzantineConsistentChannelSession.java:320-323 | along any run of deliveries an instance that is fresh or freshly reset becomes reset once its rank delivers and is untouched otherwise |
| ByzantineChannel.FreshRunResetsSenders | appia-tutorial/src/irdp/protocols/tutorialDA/byzantineconsistentchannel/BByzantineConsistentChannelSession.java:313-331 | from a fresh channel, after any run of deliveries, each rank's instance is fresh when nothing came from it and reset otherwise |
| ProcessSet.New | src/core/eu/emdc/testing/ProcessSet.java:108-113 | a new set of size n has n empty slots and local rank 0 |
| ProcessSet.GetRank | src/core/eu/emdc/testing/ProcessSet.java:144-150 | the lowest rank whose slot holds the address, or -1 exactly when no slot holds it |
| ProcessSet.GetProcessByAddr | src/core/eu/emdc/testing/ProcessSet.java:202-208 | a process is returned exactly when some slot holds the address, and it is that slot's process |
| ProcessSet.Members | src/core/eu/emdc/testing/ProcessSet.java:124-131 | the occupied slots in rank order, matched one to one with their socket addresses |
| ProcessSet.GetAllSockets | src/core/eu/emdc/testing/ProcessSet.java:228-236 | the listed addresses are exactly the addresses that have a rank, at most one per slot |
| ProcessSet.SocketsFullPrefix | src/core/eu/emdc/testing/ProcessSet.java:228-236 | when the slots below a rank are all filled, the listed addresses begin with theirs, in rank order |
| ProcessSet.AddProcess | src/core/eu/emdc/testing/ProcessSet.java:160-170 | as written, adding succeeds exactly for a rank at most one past the end, growing the array by one slot in that case; only the slot at the rank changes and the local rank follows the isSelf flag |
| ProcessSet.AddProcessPastEndFails | src/core/eu/emdc/testing/ProcessSet.java:161-167 | as written, adding rank 2 to an empty set writes out of bounds, where the intended version stores it |
| ProcessSet.AddProcessGrowing | src/core/eu/emdc/testing/ProcessSet.java:160-170 | corrected: the array grows to hold the rank, the new slots in between stay empty, and only the rank's slot changes |
| ProcessSet.AddProcessAgrees | src/core/eu/emdc/testing/ProcessSet.java:160-170 | wherever the code as written succeeds it agrees with the corrected version |
| ProcessSet.SetCorrect | src/core/eu/emdc/testing/ProcessSet.java:180-182 | only the flag of the process at that rank changes |
| ProcessSet.GetSelfProcess | src/core/eu/emdc/testing/ProcessSet.java:224-226 | the local process is found exactly when the local rank lies within the array and its slot is filled, and it is then a member of the set |
| ProcessSet.CloneProcessSet | src/core/eu/emdc/testing/ProcessSet.java:243-250 | cloning succeeds exactly when every slot is filled, and then gives an equal set |
| ProcessSet.MarkCrashed | src/core/eu/emdc/testing/ProcessSet.java:180-182 | marking a crash succeeds exactly for a filled slot in range; that process is no longer correct and nothing else changes |
| ProcessSet.CorrectCountFull | appia-tutorial/src/irdp/protocols/tutorialDA/gcPastCO/GCPastCOSession.java:523-530 | the number of correct processes equals the size exactly when every slot holds a correct process |
| ProcessSet.CrashLowersCorrectCount | src/core/eu/emdc/testing/ProcessSet.java:180-182 | reporting the crash of a correct process lowers the count by one; any other report leaves it |
| BoundedPrint.Handle | appia-tutorial/src/irdp/protocols/tutorialDA/print/BoundedPrintSession.java:58-131 | ChannelInit sets the budget to 5 and is passed on; a request within budget is forwarded with the alarm after the last one; a request beyond it is refused with its id; a confirmation reports OK; other events are swallowed |
| BoundedPrint.ServeBudgeted | appia-tutorial/src/irdp/protocols/tutorialDA/print/BoundedPrintSession.java:78-113 | a run of requests from budget k forwards the first k, raises the alarm right after the k-th, refuses every later one, and leaves the unused budget |
| BoundedPrint.BudgetedShape | appia-tutorial/src/irdp/protocols/tutorialDA/print/BoundedPrintSession.java:78-113 | position by position: forwards first, the alarm at position k, refusals after it |
| BoundedPrint.FiveThenRefuse | appia-tutorial/src/irdp/protocols/tutorialDA/print/BoundedPrintSession.java:68-113 | after a ChannelInit the first five requests are forwarded, the alarm follows the fifth and each later request is refused |
| Delay.Init | appia-tutorial/src/irdp/protocols/tutorialDA/delay/DelaySession.java:63-94 | the defaults: process 2 delays the messages of process 0 by 30 tics, nothing held back |
| Delay.TicList | appia-tutorial/src/irdp/protocols/tutorialDA/delay/DelaySession.java:161-177 | one tic splits the held messages into released and kept, all of them accounted for, the kept ones with counters above 0 |
| Delay.TicListMoves | appia-tutorial/src/irdp/protocols/tutorialDA/delay/DelaySession.java:161-177 | a held message with more than one tic left stays with one tic less; any other is released; nothing else is kept or released |
| Delay.Handle | appia-tutorial/src/irdp/protocols/tutorialDA/delay/DelaySession.java:96-220 | ChannelInit starts the timer; a tic releases what is due and is passed on; messages from the delayed process at the delayer are held, passed or dropped by the sign of ticsDelayed; everything else is passed |
| Delay.ReleasedOnTic | appia-tutorial/src/irdp/protocols/tutorialDA/delay/DelaySession.java:161-177 | a message held with counter c stays held with c − k tics left for the first k < c tics and the c-th tic releases it |
| Delay.HeldForTics | appia-tutorial/src/irdp/protocols/tutorialDA/delay/DelaySession.java:186-211 | at the delayer, a message from the delayed process is held for the first tics − 1 tics after it arrives and released by the last |
| TcpBasedPFD.Notify | appia-tutorial/src/irdp/protocols/tutorialDA/tcpBasedPFD/TcpBasedPFDSession.java:131-145 | an unknown failed address raises; a correct process is marked crashed and announced by its number; an already crashed one is not announced again |
| TcpBasedPFD.Handle | appia-tutorial/src/irdp/protocols/tutorialDA/tcpBasedPFD/TcpBasedPFDSession.java:70-145 | ChannelInit and ProcessInit are passed on (the latter storing the set); PFDStart sets started and asks for channels; failures are reported only once started; other events are swallowed |
| TcpBasedPFD.AnnouncedOnce | appia-tutorial/src/irdp/protocols/tutorialDA/tcpBasedPFD/TcpBasedPFDSession.java:131-145 | a run of failure reports announces each process at most once, only processes correct before the run, and leaves every announced process crashed |
| TcpBasedPFD.Init | appia-tutorial/src/irdp/protocols/tutorialDA/tcpBasedPFD/TcpBasedPFDSession.java:65-68 | a new detector is not started and has no process set, so failure reports are ignored until PFDStart (`TcpBasedPFD.Handle`) |
| TRBProposal.OfMessage | appia-tutorial/src/irdp/protocols/tutorialDA/consensusTRB/TRBProposal.java:54-56 | a proposal built from a message is not a failure claim and carries the message |
| TRBProposal.OfFlag | appia-tutorial/src/irdp/protocols/tutorialDA/consensusTRB/TRBProposal.java:58-60 | a proposal built from a flag carries no message and claims failure exactly when the flag is set |
| TRBProposal.CompareTo | appia-tutorial/src/irdp/protocols/tutorialDA/consensusTRB/TRBProposal.java:65-75 | comparing with an object of another class raises; otherwise the result is 0 exactly when the failed flags agree and negative exactly when only the other proposal is a failure claim |
| TRBProposal.Equals | appia-tutorial/src/irdp/protocols/tutorialDA/consensusTRB/TRBProposal.java:80-86 | equal exactly when the other object is a proposal with the same failed flag |
| TRBProposal.HashCode | appia-tutorial/src/irdp/protocols/tutorialDA/consensusTRB/TRBProposal.java:91-97 | the hash is 0 exactly for a failure claim |
| TRBProposal.OrderAndHashAgree | appia-tutorial/src/irdp/protocols/tutorialDA/consensusTRB/TRBProposal.java:65-97 | comparison is antisymmetric, equality is symmetric, and two proposals are equal exactly when their hash codes are: the message takes no part in any of the three |
| MembershipView.CompareTo | appia-tutorial/src/irdp/protocols/tutorialDA/membershipUtils/View.java:60-73 | comparing with another class raises; otherwise the result is -1, 0 or 1, 0 exactly when identifier and membership size agree, negative exactly when this view has the higher identifier or the same identifier and fewer members |
| MembershipView.MembersFoundFrom | appia-tutorial/src/irdp/protocols/tutorialDA/membershipUtils/View.java:86-91 | from a rank on, the membership loop succeeds exactly when every slot holds a process whose address the other membership has |
| MembershipView.Equals | appia-tutorial/src/irdp/protocols/tutorialDA/membershipUtils/View.java:78-92 | another class, another identifier or another size gives false; the result is true exactly when identifier and size agree and every member's address is found in the other view |
| MembershipView.HashCode | appia-tutorial/src/irdp/protocols/tutorialDA/membershipUtils/View.java:97-103 | the hash is defined exactly when every slot holds a process, and is then the identifier plus the address hashes reduced once to a 32-bit int |
| MembershipView.HashWrapsOnce | appia-tutorial/src/irdp/protocols/tutorialDA/membershipUtils/View.java:98-102 | wrapping to 32 bits after every addition of the loop equals wrapping the exact sum once |
| MembershipView.SumPermutation | appia-tutorial/src/irdp/protocols/tutorialDA/membershipUtils/View.java:100-101 | the sum of the address hashes depends only on the multiset of addresses, not on their rank order |
| MembershipView.EqualViewsHashAlike | appia-tutorial/src/irdp/protocols/tutorialDA/membershipUtils/View.java:78-103 | two equal views whose members have distinct addresses have the same hash code |
| MembershipView.EqualsComparesZero | appia-tutorial/src/irdp/protocols/tutorialDA/membershipUtils/View.java:60-92 | equal views compare as 0 |
| MembershipView.CompareAntisymmetric | appia-tutorial/src/irdp/protocols/tutorialDA/membershipUtils/View.java:60-73 | comparing two views one way gives the negation of comparing them the other way |
| MembershipView.EqualsNeedsDistinctMembers | appia-tutorial/src/irdp/protocols/tutorialDA/membershipUtils/View.java:78-92 | when a membership lists one address twice, a view can equal another that does not equal it back |
| ViewSyncMsg.Equals | appia-tutorial/src/irdp/protocols/tutorialDA/trbViewSync/Msg.java:75-81 | another class gives false; a null sender on either side raises; otherwise equal exactly when the sender addresses and identifiers agree |
| ViewSyncMsg.HashCode | appia-tutorial/src/irdp/protocols/tutorialDA/trbViewSync/Msg.java:85-87 | defined exactly when there is a sender; the result is a 32-bit int congruent to the address hash plus the identifier |
| ViewSyncMsg.EqualsIsEquivalence | appia-tutorial/src/irdp/protocols/tutorialDA/trbViewSync/Msg.java:75-87 | on records with senders, equality is reflexive and symmetric, and equal records hash alike |
| ViewSyncMsg.PayloadIgnored | appia-tutorial/src/irdp/protocols/tutorialDA/trbViewSync/Msg.java:75-81 | a record equals any record with the same sender and identifier, whatever class name and bytes it carries |
| ProcessSet.AddrOfRank | src/core/eu/emdc/testing/ProcessSet.java:191-193 | a rank has an address exactly when it lies within the array and its slot holds a process, and the address is that process's |
| UrbEntry.TryDeliverOnce | appia-tutorial/src/irdp/protocols/tutorialDA/allAckURB/AllAckURBSession.java:116-123 | a scan emits only deliveries, each of an identifier that was not delivered before, has an entry and was ready, carrying that entry's message; no identifier twice; every delivered identifier is recorded, and without a raise nothing else is |
| UrbEntry.TryDeliverComplete | appia-tutorial/src/irdp/protocols/tutorialDA/allAckURB/AllAckURBSession.java:116-123 | a scan that does not raise leaves no visited identifier that is ready and still undelivered |
| UrbEntry.TryDeliverCompleteOverTable | appia-tutorial/src/irdp/protocols/tutorialDA/allAckURB/AllAckURBSession.java:116-123 | when the scan order lists every key of the ack table, a scan that does not raise leaves no entry of the table ready and undelivered |
| AllAckURB.Init | appia-tutorial/src/irdp/protocols/tutorialDA/allAckURB/AllAckURBSession.java:67-83 | before any ChannelInit there are no lists, no process set, sequence number 0 and an empty ack table |
| AllAckURB.AckedFromIff | appia-tutorial/src/irdp/protocols/tutorialDA/allAckURB/AllAckURBSession.java:129-133 | the ack loop succeeds exactly when every slot from the start rank on holds a process and every process believed correct has its ack flag set; it cannot raise when the set is full and the flags cover it |
| AllAckURB.Ready | appia-tutorial/src/irdp/protocols/tutorialDA/allAckURB/AllAckURBSession.java:129-136 | canDeliver, apart from the delivered test, holds exactly when the identifier has an entry, every correct process has acked and the identifier was received |
| AllAckURB.TryDeliverOnceHere | appia-tutorial/src/irdp/protocols/tutorialDA/allAckURB/AllAckURBSession.java:116-136 | the session's scan changes only the delivered list, delivers only deliverable identifiers with their entry's message, each once, records them, and without a raise leaves no visited identifier deliverable |
| AllAckURB.AddAck | appia-tutorial/src/irdp/protocols/tutorialDA/allAckURB/AllAckURBSession.java:260-271 | an unknown sender raises; before ChannelInit it raises; otherwise the entry of the identifier is created if missing with one cleared flag per process, only that entry changes, and the sender's flag is set unless its number is out of range, which raises |
| AllAckURB.Broadcast | appia-tutorial/src/irdp/protocols/tutorialDA/allAckURB/AllAckURBSession.java:169-186 | a missing local process raises; otherwise the identifier is (own number, sequence number), the number grows by one, and after ChannelInit the identifier is recorded as received and the message goes down with it on top |
| AllAckURB.BroadcastFraming | appia-tutorial/src/irdp/protocols/tutorialDA/allAckURB/AllAckURBSession.java:169-186 | a receiver popping what a broadcast sent gets the broadcast's identifier and the application's message |
| AllAckURB.BebDeliver | appia-tutorial/src/irdp/protocols/tutorialDA/allAckURB/AllAckURBSession.java:193-210 | a message without an identifier on top or before ProcessInit raises; otherwise the ack is recorded, the identifier becomes received, and the original message is relayed exactly when the identifier had not been received |
| AllAckURB.OnCrash | appia-tutorial/src/irdp/protocols/tutorialDA/allAckURB/AllAckURBSession.java:253-258 | only the process set changes: the process of that rank is marked crashed, and an unknown rank or a missing set raises |
| AllAckURB.Then | appia-tutorial/src/irdp/protocols/tutorialDA/allAckURB/AllAckURBSession.java:111-113 | the delivery scan runs after every handler that did not raise, its deliveries following the handler's output |
| AllAckURB.Handler | appia-tutorial/src/irdp/protocols/tutorialDA/allAckURB/AllAckURBSession.java:85-110 | no handler delivers by itself, and only ChannelInit touches the delivered list |
| AllAckURB.ThenOnce | appia-tutorial/src/irdp/protocols/tutorialDA/allAckURB/AllAckURBSession.java:111-123 | after a handler that delivers nothing, every delivery of the step is of a new identifier, no identifier twice, and each is recorded as delivered |
| AllAckURB.DeliverAtMostOnce | appia-tutorial/src/irdp/protocols/tutorialDA/allAckURB/AllAckURBSession.java:85-123 | every delivery of a step is of an identifier not delivered before and recorded afterwards, no identifier twice within the step, and only ChannelInit ever removes an identifier from the delivered list |
| AllAckURB.UpRecordsAck | appia-tutorial/src/irdp/protocols/tutorialDA/allAckURB/AllAckURBSession.java:193-210 | after a message arrives without a raise, its sender's flag is set in the identifier's entry, the identifier is received, and flags already set stay set |
| AllAckURB.CrashKeepsDeliverable | appia-tutorial/src/irdp/protocols/tutorialDA/allAckURB/AllAckURBSession.java:253-258 | a crash only shrinks the set of processes believed correct, so a deliverable message stays deliverable |
| AllAckURB.Handle | appia-tutorial/src/irdp/protocols/tutorialDA/allAckURB/AllAckURBSession.java:85-136 | every message a step delivers was acked by every process believed correct and is the message of its entry; a step that does not raise leaves no identifier of the scan deliverable and undelivered (at most once: `AllAckURB.DeliverAtMostOnce`) |
| MajorityAckURB.Init | appia-tutorial/src/irdp/protocols/tutorialDA/majorityAckURB/MajorityAckURBSession.java:49-67 | before any ChannelInit there are no lists, no process set, sequence number 0 and an empty ack table |
| MajorityAckURB.NumAcks | appia-tutorial/src/irdp/protocols/tutorialDA/majorityAckURB/MajorityAckURBSession.java:120-123 | the count of set flags among the first N is at most N |
| MajorityAckURB.Ready | appia-tutorial/src/irdp/protocols/tutorialDA/majorityAckURB/MajorityAckURBSession.java:119-124 | the ack count raises exactly when there is no process set or the flag array is shorter than N; it succeeds exactly when more than N / 2 of the first N flags are set |
| MajorityAckURB.TryDeliverOnceHere | appia-tutorial/src/irdp/protocols/tutorialDA/majorityAckURB/MajorityAckURBSession.java:102-124 | the scan changes only the delivered list, delivers only deliverable identifiers with their entry's message, each once, records them, and without a raise leaves no visited identifier deliverable |
| MajorityAckURB.AddAck | appia-tutorial/src/irdp/protocols/tutorialDA/majorityAckURB/MajorityAckURBSession.java:246-257 | an unknown sender or missing lists raise; otherwise the entry is created if missing with N cleared flags, only that entry changes, and the sender's flag is set unless its number is out of range, which raises |
| MajorityAckURB.Broadcast | appia-tutorial/src/irdp/protocols/tutorialDA/majorityAckURB/MajorityAckURBSession.java:158-174 | a missing local process raises; otherwise the identifier is (own number, sequence number), the number grows by one, and after ChannelInit the identifier joins the forward list and the message goes down with it on top |
| MajorityAckURB.BebDeliver | appia-tutorial/src/irdp/protocols/tutorialDA/majorityAckURB/MajorityAckURBSession.java:181-200 | a message without an identifier on top or before ProcessInit raises; otherwise the ack is recorded, the identifier joins the forward list, and the original message is relayed exactly when it was not there |
| MajorityAckURB.Handler | appia-tutorial/src/irdp/protocols/tutorialDA/majorityAckURB/MajorityAckURBSession.java:69-92 | no handler delivers by itself, and only ChannelInit touches the delivered list |
| MajorityAckURB.DeliverAtMostOnce | appia-tutorial/src/irdp/protocols/tutorialDA/majorityAckURB/MajorityAckURBSession.java:69-111 | every delivery of a step is of an identifier not delivered before and recorded afterwards, no identifier twice within the step, and only ChannelInit ever removes an identifier from the delivered list |
| MajorityAckURB.ReadyStaysReady | appia-tutorial/src/irdp/protocols/tutorialDA/majorityAckURB/MajorityAckURBSession.java:181-200 | an arrival only adds acks, so an identifier whose entry had a majority keeps it |
| MajorityAckURB.CountBothBound | appia-tutorial/src/irdp/protocols/tutorialDA/majorityAckURB/MajorityAckURBSession.java:119-124 | two flag vectors of one length share at least as many set positions as their counts exceed the length together |
| MajorityAckURB.MajoritiesIntersect | appia-tutorial/src/irdp/protocols/tutorialDA/majorityAckURB/MajorityAckURBSession.java:119-124 | two entries each acked by more than N / 2 of N processes share an acking process |
| MajorityAckURB.Handle | appia-tutorial/src/irdp/protocols/tutorialDA/majorityAckURB/MajorityAckURBSession.java:69-124 | every message a step delivers was acked by more than half of the processes and is the message of its entry; a step that does not raise leaves no identifier of the scan deliverable and undelivered (at most once: `MajorityAckURB.DeliverAtMostOnce`) |
| EagerPB.Init | appia-tutorial/src/irdp/protocols/tutorialDA/eagerPB/EagerPBSession.java:67-73 | a new session keeps the layer's fanout and round count, starts its sequence numbers at 0 and has neither a delivered list nor a process set |
| EagerPB.ClampAsWritten | appia-tutorial/src/irdp/protocols/tutorialDA/eagerPB/EagerPBSession.java:107-109 | the fanout as written is the layer's fanout or the number of processes, never above the latter |
| EagerPB.Clamp | appia-tutorial/src/irdp/protocols/tutorialDA/eagerPB/EagerPBSession.java:107-109 | the corrected fanout never exceeds the number of processes other than the local one |
| EagerPB.PickTargetsSound | appia-tutorial/src/irdp/protocols/tutorialDA/eagerPB/EagerPBSession.java:174-188 | whenever the draw loop ends, it returns exactly fanout distinct ranks, none the local rank, all among the draws |
| EagerPB.PickFromStuck | appia-tutorial/src/irdp/protocols/tutorialDA/eagerPB/EagerPBSession.java:178-182 | with a fanout of at least N among N ranks, no sequence of draws ever ends the loop |
| EagerPB.AsWrittenClampNeverPicks | appia-tutorial/src/irdp/protocols/tutorialDA/eagerPB/EagerPBSession.java:107-109 | a layer fanout of at least N is clamped to N as written, and then no finite sequence of draws ends target picking |
| EagerPB.ClampedPicks | appia-tutorial/src/irdp/protocols/tutorialDA/eagerPB/EagerPBSession.java:174-188 | with the corrected clamp, drawing each other rank once always ends target picking |
| EagerPB.FrameRoundTrip | appia-tutorial/src/irdp/protocols/tutorialDA/eagerPB/EagerPBSession.java:130-134 | the receiver pops the round and then the identifier the sender pushed, and is left with the sender's message |
| EagerPB.SendAll | appia-tutorial/src/irdp/protocols/tutorialDA/eagerPB/EagerPBSession.java:158-168 | one framed copy goes to each target in order, and the loop stops early exactly when some target has no address |
| EagerPB.Gossip | appia-tutorial/src/irdp/protocols/tutorialDA/eagerPB/EagerPBSession.java:155-169 | with fanout 0 nothing is sent; otherwise a complete gossip sends exactly fanout copies, each framed with the identifier and round |
| EagerPB.GossipSends | appia-tutorial/src/irdp/protocols/tutorialDA/eagerPB/EagerPBSession.java:155-169 | every copy gossip emits, even when it stops early, carries the identifier and the round |
| EagerPB.Relay | appia-tutorial/src/irdp/protocols/tutorialDA/eagerPB/EagerPBSession.java:150-152 | a message is passed on only while its round is positive, and then with a lower non-negative round |
| EagerPB.Broadcast | appia-tutorial/src/irdp/protocols/tutorialDA/eagerPB/EagerPBSession.java:120-125 | a broadcast without a process set raises; otherwise it increments the sequence number and gossips the message with identifier (own rank, old sequence number) at round maxRounds - 1 |
| EagerPB.ReceiveSpec | appia-tutorial/src/irdp/protocols/tutorialDA/eagerPB/EagerPBSession.java:130-153 | a received message records its identifier, is delivered with the broadcaster's address exactly when the identifier is new, and is sent on only with the round one lower, and only when the round was positive |
| EagerPB.HopsBounded | appia-tutorial/src/irdp/protocols/tutorialDA/eagerPB/EagerPBSession.java:120-153 | along any chain of relays starting from a broadcast, rounds decrease by one and there are at most max(maxRounds, 1) hops |
| EagerPB.Handle | appia-tutorial/src/irdp/protocols/tutorialDA/eagerPB/EagerPBSession.java:75-115 | ChannelInit creates an empty delivered list, ProcessInit records the process set and clamps the fanout below the number of processes, and other events are swallowed |
| EagerPB.FanoutClamped | appia-tutorial/src/irdp/protocols/tutorialDA/eagerPB/EagerPBSession.java:107-109 | after a ProcessInit the fanout is at most the number of other processes, and a fanout already within that bound is unchanged |
| EagerPB.HandleAsWritten | appia-tutorial/src/irdp/protocols/tutorialDA/eagerPB/EagerPBSession.java:75-115 | the handler as written: ProcessInit clamps the fanout to at most N, and every other event is handled as by the corrected handler |
| EagerPB.AsWrittenAgreesBelowN | appia-tutorial/src/irdp/protocols/tutorialDA/eagerPB/EagerPBSession.java:107-109 | when the layer's fanout is already below N, the handler as written and the corrected one agree |
| EagerPB.AsWrittenInitStallsBroadcast | appia-tutorial/src/irdp/protocols/tutorialDA/eagerPB/EagerPBSession.java:107-109 | after the as-written ProcessInit with a fanout of at least N, no broadcast completes on any draws within range |
| EagerPB.Receive | appia-tutorial/src/irdp/protocols/tutorialDA/eagerPB/EagerPBSession.java:130-153 | only the delivered set changes and it only grows; a delivery comes first in the output and only for an identifier not delivered before, now recorded (the framed case in full: `EagerPB.ReceiveSpec`) |
| LazyRB.Init | appia-tutorial/src/irdp/protocols/tutorialDA/lazyRB/LazyRBSession.java:67-70 | a new session has sequence number 0, no delivered list, no process set and no per-sender lists |
| LazyRB.Broadcast | appia-tutorial/src/irdp/protocols/tutorialDA/lazyRB/LazyRBSession.java:126-135 | a broadcast without a local process raises; otherwise only the sequence number changes, by one, and the message goes down once under the identifier (own number, old sequence number) |
| LazyRB.PeekId | appia-tutorial/src/irdp/protocols/tutorialDA/lazyRB/LazyRBSession.java:144 | the identifier is read exactly when the top item is one, and popping it leaves the rest of the message |
| LazyRB.BebDeliver | appia-tutorial/src/irdp/protocols/tutorialDA/lazyRB/LazyRBSession.java:142-181 | a copy with no identifier on top, or before ChannelInit, raises; an identifier seen before changes nothing; a new one is recorded and delivered without its header before the sender is looked up, then the copy is kept in the sender's list and sent again when the sender is already believed crashed; an unknown sender raises after the delivery |
| LazyRB.OnCrash | appia-tutorial/src/irdp/protocols/tutorialDA/lazyRB/LazyRBSession.java:205-222 | the crash notification is passed on; the process is marked crashed, each message kept for it is sent again in order, and its list is emptied; an unknown rank raises |
| LazyRB.Handle | appia-tutorial/src/irdp/protocols/tutorialDA/lazyRB/LazyRBSession.java:75-119 | ChannelInit empties the delivered list, ProcessInit records the process set and gives every process an empty list, and unknown events are swallowed |
| LazyRB.BroadcastDelivered | appia-tutorial/src/irdp/protocols/tutorialDA/lazyRB/LazyRBSession.java:126-160 | what a broadcast sends down carries the broadcaster's identifier, and a process that has not seen that identifier delivers exactly the application's message |
| LazyRB.KeptUntilCrash | appia-tutorial/src/irdp/protocols/tutorialDA/lazyRB/LazyRBSession.java:163-179 | a message delivered from a sender is kept, and the sender's later crash notification sends it again |
| LazyRB.DeliveredOnce | appia-tutorial/src/irdp/protocols/tutorialDA/lazyRB/LazyRBSession.java:145-147 | once an identifier is delivered, after any event other than ChannelInit a later copy changes no state and emits nothing |
| SharedRegister.PopVal | appia-tutorial/src/irdp/protocols/tutorialDA/readImposeWriteAll1NAR/ReadImposeWriteAll1NARSession.java:204 | a value is popped exactly when the top item is one, and pushing it back gives the message again |
| SharedRegister.AckRoundTrip | appia-tutorial/src/irdp/protocols/tutorialDA/readImposeWriteAll1NAR/ReadImposeWriteAll1NARSession.java:212-225 | the requester pops the register and then the request identifier the acknowledging process pushed |
| SharedRegister.Entry | appia-tutorial/src/irdp/protocols/tutorialDA/readImposeWriteAll1NAR/ReadImposeWriteAll1NARSession.java:70-71 | a register's write set exists exactly when the list of write sets reaches that register |
| SharedRegister.AckedFrom | appia-tutorial/src/irdp/protocols/tutorialDA/readImposeWriteAll1NAR/ReadImposeWriteAll1NARSession.java:243-249 | the inner scan succeeds exactly when every slot from that rank on holds a process, and each process believed correct is in the write set |
| SharedRegister.SweepFrame | appia-tutorial/src/irdp/protocols/tutorialDA/readImposeWriteAll1NAR/ReadImposeWriteAll1NARSession.java:239-281 | the scan never changes a register before the one it starts at |
| SharedRegister.SweepReturnsComplete | appia-tutorial/src/irdp/protocols/tutorialDA/readImposeWriteAll1NAR/ReadImposeWriteAll1NARSession.java:239-281 | every return the scan emits belongs to a complete register, carries the pending read's value or is a write return, and returns come in increasing register order, so no register returns twice in one scan |
| SharedRegister.SweepCompletes | appia-tutorial/src/irdp/protocols/tutorialDA/readImposeWriteAll1NAR/ReadImposeWriteAll1NARSession.java:239-281 | without a raise, each complete register returns, has its write set emptied and its read ended, and every other register is left as it was |
| SharedRegister.ReturnsOnce | appia-tutorial/src/irdp/protocols/tutorialDA/readImposeWriteAll1NAR/ReadImposeWriteAll1NARSession.java:250-253 | right after a register returned, the next scan does not return it again while some process is still believed correct |
| SharedRegister.NoCorrectReturnsAll | appia-tutorial/src/irdp/protocols/tutorialDA/readImposeWriteAll1NAR/ReadImposeWriteAll1NARSession.java:245-250 | with no process believed correct, every register returns on every scan, with or without a pending request |
| SharedRegister.SweepNeverRaises | appia-tutorial/src/irdp/protocols/tutorialDA/readImposeWriteAll1NAR/ReadImposeWriteAll1NARSession.java:245-247 | a scan over a full process set with all twenty write sets never raises |
| Register1NAR.Init | appia-tutorial/src/irdp/protocols/tutorialDA/readImposeWriteAll1NAR/ReadImposeWriteAll1NARSession.java:61-72 | a new session has no write sets and no process set, and every register holds null with sequence number 0 |
| Register1NAR.OnProcessInit | appia-tutorial/src/irdp/protocols/tutorialDA/readImposeWriteAll1NAR/ReadImposeWriteAll1NARSession.java:135-153 | ProcessInit keeps the process set, resets every register to null with sequence number 0 and no read, and appends twenty empty write sets after those already there |
| Register1NAR.OnCrash | appia-tutorial/src/irdp/protocols/tutorialDA/readImposeWriteAll1NAR/ReadImposeWriteAll1NARSession.java:155-165 | a crash of an unknown process, or before ProcessInit, raises; otherwise the process is marked crashed, the event passed on and the registers scanned, with values and numbers unchanged |
| Register1NAR.OnRead | appia-tutorial/src/irdp/protocols/tutorialDA/readImposeWriteAll1NAR/ReadImposeWriteAll1NARSession.java:167-183 | a read of a register outside 0..19 raises; otherwise it starts a new request, captures the value held and sends a WRITE imposing that value with the sequence number held |
| Register1NAR.OnWrite | appia-tutorial/src/irdp/protocols/tutorialDA/readImposeWriteAll1NAR/ReadImposeWriteAll1NARSession.java:185-198 | a write to a register outside 0..19 raises; otherwise it starts a new request and sends a WRITE of the value with the next sequence number |
| Register1NAR.OnWriteEvent | appia-tutorial/src/irdp/protocols/tutorialDA/readImposeWriteAll1NAR/ReadImposeWriteAll1NARSession.java:200-220 | a WRITE that does not parse or names no register raises; otherwise the value is adopted exactly when its sequence number is higher than the one held, and the request is acked to its sender either way |
| Register1NAR.OnAckEvent | appia-tutorial/src/irdp/protocols/tutorialDA/readImposeWriteAll1NAR/ReadImposeWriteAll1NARSession.java:222-234 | an ack that does not parse, names no register or comes before ProcessInit raises; an ack of the register's current request adds its sender to the write set and scans; any other ack changes nothing |
| Register1NAR.Handle | appia-tutorial/src/irdp/protocols/tutorialDA/readImposeWriteAll1NAR/ReadImposeWriteAll1NARSession.java:81-104 | every event but ProcessInit keeps each sequence number or raises it, and only a WRITE changes a value or a sequence number |
| Register1NAR.ReadImposes | appia-tutorial/src/irdp/protocols/tutorialDA/readImposeWriteAll1NAR/ReadImposeWriteAll1NARSession.java:167-209 | every process that handles the WRITE a read sends ends with at least the reader's sequence number, holding the reader's value when the numbers meet |
| Register1NAR.WriteSupersedes | appia-tutorial/src/irdp/protocols/tutorialDA/readImposeWriteAll1NAR/ReadImposeWriteAll1NARSession.java:185-209 | every process that handles a write's WRITE ends with a sequence number above the writer's, holding the written value unless it already held a higher number |
| Register1NAR.OwnAckCounted | appia-tutorial/src/irdp/protocols/tutorialDA/readImposeWriteAll1NAR/ReadImposeWriteAll1NARSession.java:176-228 | the ack sent for a read's WRITE is counted by the reader while that read is still the register's current request |
| Register1NAR.StaleAckIgnored | appia-tutorial/src/irdp/protocols/tutorialDA/readImposeWriteAll1NAR/ReadImposeWriteAll1NARSession.java:227 | an ack of an older request of its register changes nothing and emits nothing |
| Register1NAR.ReadReturnsCaptured | appia-tutorial/src/irdp/protocols/tutorialDA/readImposeWriteAll1NAR/ReadImposeWriteAll1NARSession.java:167-170 | when an ack completes the register of a pending read, the return carries the value held when the read began, and the read is over |
| Register1NAR.WritesCommute | appia-tutorial/src/irdp/protocols/tutorialDA/readImposeWriteAll1NAR/ReadImposeWriteAll1NARSession.java:206-209 | WRITEs with different sequence numbers leave every register with the same value and number in either order |
| RegisterNNAR.OlderIsStrictTotalOrder | appia-tutorial/src/irdp/protocols/tutorialDA/readImposeWriteConsultNNAR/ReadImposeWriteConsultNNARSession.java:219 | the tag order (timestamp, then lower writer rank wins) is irreflexive, transitive, asymmetric and total on different tags |
| RegisterNNAR.Init | appia-tutorial/src/irdp/protocols/tutorialDA/readImposeWriteConsultNNAR/ReadImposeWriteConsultNNARSession.java:61-74 | a new session has no write sets, no process set and local rank -1, and the Java array defaults: timestamps 0, writer ranks 0, values null |
| RegisterNNAR.WriteRoundTrip | appia-tutorial/src/irdp/protocols/tutorialDA/readImposeWriteConsultNNAR/ReadImposeWriteConsultNNARSession.java:181-217 | the receiver pops register, request identifier, timestamp, writer rank and value exactly as the sender pushed them |
| RegisterNNAR.OnProcessInit | appia-tutorial/src/irdp/protocols/tutorialDA/readImposeWriteConsultNNAR/ReadImposeWriteConsultNNARSession.java:137-160 | ProcessInit keeps the process set and local rank, resets every register to null with timestamp 0 and writer rank -1, and appends twenty empty write sets |
| RegisterNNAR.OnCrash | appia-tutorial/src/irdp/protocols/tutorialDA/readImposeWriteConsultNNAR/ReadImposeWriteConsultNNARSession.java:162-172 | a crash of an unknown process, or before ProcessInit, raises; otherwise the process is marked crashed and the registers scanned, with tags and values unchanged |
| RegisterNNAR.OnRead | appia-tutorial/src/irdp/protocols/tutorialDA/readImposeWriteConsultNNAR/ReadImposeWriteConsultNNARSession.java:174-192 | a read outside 0..19 raises; otherwise it starts a new marked read, and raises without sending when the register has no write set yet |
| RegisterNNAR.OnWrite | appia-tutorial/src/irdp/protocols/tutorialDA/readImposeWriteConsultNNAR/ReadImposeWriteConsultNNARSession.java:194-210 | a write outside 0..19 raises; otherwise it starts a new request, and raises without sending when the register has no write set yet |
| RegisterNNAR.OnWriteEvent | appia-tutorial/src/irdp/protocols/tutorialDA/readImposeWriteConsultNNAR/ReadImposeWriteConsultNNARSession.java:212-234 | a WRITE that does not parse or names no register raises; otherwise the value and tag are adopted exactly when the tag is newer, the tag held after is the newer of the two, and the request is acked to its sender |
| RegisterNNAR.OnAckEvent | appia-tutorial/src/irdp/protocols/tutorialDA/readImposeWriteConsultNNAR/ReadImposeWriteConsultNNARSession.java:236-248 | an ack that does not parse, names no register or comes before ProcessInit raises; an ack of the register's current request adds its sender and scans; any other ack changes nothing |
| RegisterNNAR.Handle | appia-tutorial/src/irdp/protocols/tutorialDA/readImposeWriteConsultNNAR/ReadImposeWriteConsultNNARSession.java:80-103 | every event but ProcessInit leaves each register's tag as it was or makes it newer, and only a WRITE changes a tag or a value |
| RegisterNNAR.WriteSupersedes | appia-tutorial/src/irdp/protocols/tutorialDA/readImposeWriteConsultNNAR/ReadImposeWriteConsultNNARSession.java:194-223 | every process that handles a write's WRITE ends with a tag newer than the writer's, holding the written value when its own tag was older than the one sent |
| RegisterNNAR.ReadImposes | appia-tutorial/src/irdp/protocols/tutorialDA/readImposeWriteConsultNNAR/ReadImposeWriteConsultNNARSession.java:174-223 | every process that handles the WRITE a read sends ends with a tag at least the reader's, holding the reader's value when its own tag was older |
| RegisterNNAR.WritesCommute | appia-tutorial/src/irdp/protocols/tutorialDA/readImposeWriteConsultNNAR/ReadImposeWriteConsultNNARSession.java:219-223 | WRITEs with different tags leave every register with the same tag and value in either order |
| RegisterNNAR.StaleAckIgnored | appia-tutorial/src/irdp/protocols/tutorialDA/readImposeWriteConsultNNAR/ReadImposeWriteConsultNNARSession.java:241 | an ack of an older request of its register changes nothing and emits nothing |
| RegisterNNAR.FreshRequestIncomplete | appia-tutorial/src/irdp/protocols/tutorialDA/readImposeWriteConsultNNAR/ReadImposeWriteConsultNNARSession.java:174-196 | right after a read or write begins, its register is not complete while some process is believed correct, because its write set was cleared |
| Register1NAR.WriteRoundTrip | appia-tutorial/src/irdp/protocols/tutorialDA/readImposeWriteAll1NAR/ReadImposeWriteAll1NARSession.java:173-204 | the receiver pops register, request identifier, sequence number and value exactly as the sender pushed them |
| HierarchicalConsensus.Init | appia-tutorial/src/irdp/protocols/tutorialDA/hierarchicalConsensus/HierarchicalConsensusSession.java:60-66 | a new session is in round -1 with no adopted round, no process set, no suspicions, no flag arrays and no proposal |
| HierarchicalConsensus.Restart | appia-tutorial/src/irdp/protocols/tutorialDA/hierarchicalConsensus/HierarchicalConsensusSession.java:87-99 | starting over puts the process in round 0 with no proposal, no adopted round and one cleared broadcast flag and one cleared delivered flag per process, keeping suspicions and the process set |
| HierarchicalConsensus.At | appia-tutorial/src/irdp/protocols/tutorialDA/hierarchicalConsensus/HierarchicalConsensusSession.java:138 | a flag can be read exactly when its array exists and the index is within it |
| HierarchicalConsensus.DecidedRoundTrip | appia-tutorial/src/irdp/protocols/tutorialDA/hierarchicalConsensus/HierarchicalConsensusSession.java:154-176 | the receiver pops the round and then the proposal the deciding leader pushed |
| HierarchicalConsensus.DecideStep | appia-tutorial/src/irdp/protocols/tutorialDA/hierarchicalConsensus/HierarchicalConsensusSession.java:134-161 | the leader of the current round that holds a proposal and has not broadcast in it decides the proposal and broadcasts it with the round, setting the round's flag; otherwise nothing happens; a missing flag array or process set raises |
| HierarchicalConsensus.Advance | appia-tutorial/src/irdp/protocols/tutorialDA/hierarchicalConsensus/HierarchicalConsensusSession.java:163-171 | as written, one advance emits nothing, keeps the suspicions and the process set, and either leaves the round, moves it on by one, or starts the algorithm over |
| HierarchicalConsensus.Then | appia-tutorial/src/irdp/protocols/tutorialDA/hierarchicalConsensus/HierarchicalConsensusSession.java:121-122 | a raise in the first step skips the second; otherwise the outputs are concatenated and the second step's state is kept |
| HierarchicalConsensus.OnPropose | appia-tutorial/src/irdp/protocols/tutorialDA/hierarchicalConsensus/HierarchicalConsensusSession.java:125-132 | only the first proposal counts: a later one changes nothing; any decision it outputs is the proposal held, in the round led by this process, whose broadcast is recorded |
| HierarchicalConsensus.Adopt | appia-tutorial/src/irdp/protocols/tutorialDA/hierarchicalConsensus/HierarchicalConsensusSession.java:178-181 | a decision is adopted exactly when its round is below the local rank and above the round adopted last, and the adopted round never decreases |
| HierarchicalConsensus.AsWrittenRoundsStepByOne | appia-tutorial/src/irdp/protocols/tutorialDA/hierarchicalConsensus/HierarchicalConsensusSession.java:68-186 | as written, from a valid state the state stays valid, only a malformed or out-of-range decision or an unknown crashed rank raises, and the round stays, moves on by one, or starts over at 0 |
| HierarchicalConsensus.AdvanceLoopSettles | appia-tutorial/src/irdp/protocols/tutorialDA/hierarchicalConsensus/HierarchicalConsensusSession.java:163-171 | the corrected advance ends with the current round's leader neither suspected nor delivered, unless every rank is suspected |
| HierarchicalConsensus.RoundsSettle | appia-tutorial/src/irdp/protocols/tutorialDA/hierarchicalConsensus/HierarchicalConsensusSession.java:111-186 | with the corrected advance, after any event the state stays valid and, after a crash or a decision, the current round is settled unless every rank is suspected |
| HierarchicalConsensus.AsWrittenStallsOnCrashOrder | appia-tutorial/src/irdp/protocols/tutorialDA/hierarchicalConsensus/HierarchicalConsensusSession.java:163-171 | as written, rank 2 of three stays in round 1 after crash reports of rank 1 and then rank 0, and decides nothing, even when proposing again |
| HierarchicalConsensus.DecidesOnCrashOrder | appia-tutorial/src/irdp/protocols/tutorialDA/hierarchicalConsensus/HierarchicalConsensusSession.java:163-171 | with the corrected advance, the same reports bring rank 2 to its own round and it decides its proposal |
| HierarchicalConsensus.DecidesOncePerRound | appia-tutorial/src/irdp/protocols/tutorialDA/hierarchicalConsensus/HierarchicalConsensusSession.java:138-145 | after a decision the round's flag is set, so deciding again in the same round emits nothing |
| HierarchicalConsensus.DecisionIsProposal | appia-tutorial/src/irdp/protocols/tutorialDA/hierarchicalConsensus/HierarchicalConsensusSession.java:134-161 | every decision a handler emits is the proposal held after the step, made in the leader's own round, whose broadcast flag is then set |
| HierarchicalConsensus.AdoptKeepsHighest | appia-tutorial/src/irdp/protocols/tutorialDA/hierarchicalConsensus/HierarchicalConsensusSession.java:178-181 | two decisions from lower rounds adopted in either order leave the one of the higher round |
| HierarchicalConsensus.Handle | appia-tutorial/src/irdp/protocols/tutorialDA/hierarchicalConsensus/HierarchicalConsensusSession.java:68-85 | with the corrected advance: suspicions are never withdrawn, a crashed process is suspected from then on, and every decision emitted is the proposal held after the step, in the leader's own round, with that round's broadcast flag set (validity and settling: `HierarchicalConsensus.RoundsSettle`) |
| HierarchicalConsensus.HandleAsWritten | appia-tutorial/src/irdp/protocols/tutorialDA/hierarchicalConsensus/HierarchicalConsensusSession.java:68-85 | the same guarantees with the single-step advance of the code as written (rounds: `HierarchicalConsensus.AsWrittenRoundsStepByOne`; the stall: `AsWrittenStallsOnCrashOrder`) |
| HierarchicalConsensus.HandleWith | appia-tutorial/src/irdp/protocols/tutorialDA/hierarchicalConsensus/HierarchicalConsensusSession.java:68-85 | for any advance that emits nothing, every decision is the proposal held in the leader's round; a second proposal is ignored |
| HierarchicalConsensus.OnCrash | appia-tutorial/src/irdp/protocols/tutorialDA/hierarchicalConsensus/HierarchicalConsensusSession.java:111-123 | before ProcessInit or for an unknown rank it raises with nothing changed; otherwise the crash is passed on first, and with an advance that emits nothing every decision is the proposal held |
| HierarchicalConsensus.OnDecided | appia-tutorial/src/irdp/protocols/tutorialDA/hierarchicalConsensus/HierarchicalConsensusSession.java:173-186 | a malformed DecidedEvent or one before ProcessInit raises; a round outside the flag array raises after the adoption rule has run, as the Java array write does; with an advance that emits nothing every decision is the proposal held |
| HierarchicalConsensus.OnProcessInit | appia-tutorial/src/irdp/protocols/tutorialDA/hierarchicalConsensus/HierarchicalConsensusSession.java:101-109 | the set is kept, the process starts in round 0 with no proposal, the suspicions stay, and the state is valid exactly when the set is not empty |
| UniformConsensus.Init | appia-tutorial/src/irdp/protocols/tutorialDA/uniformHierarchicalConsensus/UniformHierarchicalConsensusSession.java:64-74 | a new session is in round -1 with no proposal, no decision, no adopted round, no process set, no suspicions and no acknowledgements |
| UniformConsensus.Restart | appia-tutorial/src/irdp/protocols/tutorialDA/uniformHierarchicalConsensus/UniformHierarchicalConsensusSession.java:169-178 | starting over gives round 0 with no proposal, no decision, no acknowledgements, no adopted round and a zero decision count, keeping suspicions and the process set |
| UniformConsensus.ProposeRoundTrip | appia-tutorial/src/irdp/protocols/tutorialDA/uniformHierarchicalConsensus/UniformHierarchicalConsensusSession.java:217-229 | the receiver pops the round and then the proposal the leader pushed |
| UniformConsensus.DecidedRoundTrip | appia-tutorial/src/irdp/protocols/tutorialDA/uniformHierarchicalConsensus/UniformHierarchicalConsensusSession.java:260-282 | the receiver pops the decision that was pushed |
| UniformConsensus.AdvanceOnce | appia-tutorial/src/irdp/protocols/tutorialDA/uniformHierarchicalConsensus/UniformHierarchicalConsensusSession.java:242-246 | as written, the round moves on by exactly one when it is over (its leader suspected or acknowledged) and stays otherwise |
| UniformConsensus.SkipFrom | appia-tutorial/src/irdp/protocols/tutorialDA/uniformHierarchicalConsensus/UniformHierarchicalConsensusSession.java:242-246 | the corrected advance stops at the first round from the current one that is not over, every round passed being over |
| UniformConsensus.ProposeStep | appia-tutorial/src/irdp/protocols/tutorialDA/uniformHierarchicalConsensus/UniformHierarchicalConsensusSession.java:205-224 | exactly the undecided leader of the current round holding a proposal sends it with the round; the state never changes; a missing process set raises |
| UniformConsensus.CoveredFrom | appia-tutorial/src/irdp/protocols/tutorialDA/uniformHierarchicalConsensus/UniformHierarchicalConsensusSession.java:248-257 | the check succeeds exactly when every process from that rank on is suspected or has acknowledged, and fails by raising only on an empty slot |
| UniformConsensus.DecideStep | appia-tutorial/src/irdp/protocols/tutorialDA/uniformHierarchicalConsensus/UniformHierarchicalConsensusSession.java:248-268 | the proposal held is broadcast as the decision exactly when every process is suspected or has acknowledged; the state never changes |
| UniformConsensus.OnPropose | appia-tutorial/src/irdp/protocols/tutorialDA/uniformHierarchicalConsensus/UniformHierarchicalConsensusSession.java:196-203 | only the first proposal counts, and it is proposed at once when this process leads the current round |
| UniformConsensus.Adopt | appia-tutorial/src/irdp/protocols/tutorialDA/uniformHierarchicalConsensus/UniformHierarchicalConsensusSession.java:232-235 | a proposal is adopted exactly when its round is below the local rank and above the round adopted last |
| UniformConsensus.ConcludeShape | appia-tutorial/src/irdp/protocols/tutorialDA/uniformHierarchicalConsensus/UniformHierarchicalConsensusSession.java:191-193 | after advancing, a handler's outputs are the proposal step's then the decision step's, in that order |
| UniformConsensus.ProposeEventAcks | appia-tutorial/src/irdp/protocols/tutorialDA/uniformHierarchicalConsensus/UniformHierarchicalConsensusSession.java:226-240 | a proposal from a known process records its sender as acknowledged, adopts it exactly under the adoption rule, and moves the round to the first one not over |
| UniformConsensus.AsWrittenRoundStepsByOne | appia-tutorial/src/irdp/protocols/tutorialDA/uniformHierarchicalConsensus/UniformHierarchicalConsensusSession.java:180-246 | as written, the round moves on by at most one per event and only out of a round that is over; only a ProcessInit or a restart sets it back to 0 |
| UniformConsensus.CrashSettlesRound | appia-tutorial/src/irdp/protocols/tutorialDA/uniformHierarchicalConsensus/UniformHierarchicalConsensusSession.java:180-193 | with the corrected advance, a crash report adds the process to the suspected set and leaves the process in a round that is not over |
| UniformConsensus.OutputsChecked | appia-tutorial/src/irdp/protocols/tutorialDA/uniformHierarchicalConsensus/UniformHierarchicalConsensusSession.java:205-268 | a decision is broadcast only when every process is suspected or has acknowledged, carrying the proposal held; a proposal is sent only by the undecided leader of the current round, with that round |
| UniformConsensus.DecidesOnce | appia-tutorial/src/irdp/protocols/tutorialDA/uniformHierarchicalConsensus/UniformHierarchicalConsensusSession.java:270-291 | the first decision delivered is output and kept; with a decision held a further one outputs nothing, and starts a fresh instance once as many decisions as correct processes have arrived |
| UniformConsensus.CrashHastensRestart | appia-tutorial/src/irdp/protocols/tutorialDA/uniformHierarchicalConsensus/UniformHierarchicalConsensusSession.java:270-305 | a crash report of a correct process lowers the number of decisions needed to start over by one |
| UniformConsensus.AsWrittenStallsOnCrashOrder | appia-tutorial/src/irdp/protocols/tutorialDA/uniformHierarchicalConsensus/UniformHierarchicalConsensusSession.java:242-246 | as written, rank 2 of three stays in round 1 after crash reports of rank 1 and then rank 0, and never proposes nor broadcasts a decision |
| UniformConsensus.DecidesOnCrashOrder | appia-tutorial/src/irdp/protocols/tutorialDA/uniformHierarchicalConsensus/UniformHierarchicalConsensusSession.java:242-246 | with the corrected advance, the same reports make rank 2 propose in its own round, and its own proposal coming back makes it broadcast the decision |
| UniformConsensus.Then | appia-tutorial/src/irdp/protocols/tutorialDA/uniformHierarchicalConsensus/UniformHierarchicalConsensusSession.java:191-193 | handlers' outputs are the step's outputs followed by the next handler's, stopping at the first raise (the ordering is stated by `UniformConsensus.ConcludeShape`) |
| UniformConsensus.OnProcessInit | appia-tutorial/src/irdp/protocols/tutorialDA/uniformHierarchicalConsensus/UniformHierarchicalConsensusSession.java:147-178 | a ProcessInit keeps the process set, passes the event on, and starts an instance in round 0 with no proposal, no decision, no acknowledgements and no decisions counted, keeping the suspicions |
| UniformConsensus.OnCrash | appia-tutorial/src/irdp/protocols/tutorialDA/uniformHierarchicalConsensus/UniformHierarchicalConsensusSession.java:180-194 | a crash report without a process set or of a process outside it raises with the state unchanged; otherwise the event is passed on first and the state is the advance of the marked set with the process suspected; for any advance, a decision is broadcast only when every process is suspected or acknowledged and a proposal only by the undecided leader (`UniformConsensus.CrashSettlesRound`) |
| UniformConsensus.OnProposeEvent | appia-tutorial/src/irdp/protocols/tutorialDA/uniformHierarchicalConsensus/UniformHierarchicalConsensusSession.java:226-240 | a proposal without a process set or that does not parse raises with the state unchanged; otherwise the state is the advance of the adoption with the sender acknowledged, and the outputs keep the same decision and proposal rules for any advance (`UniformConsensus.ProposeEventAcks`) |
| UniformConsensus.OnDecided | appia-tutorial/src/irdp/protocols/tutorialDA/uniformHierarchicalConsensus/UniformHierarchicalConsensusSession.java:270-294 | a decision raises exactly without a process set or when none is held and it does not parse; it outputs at most one delivery, only as the first decision, carrying the parsed value it keeps; otherwise it counts one more decision or starts over (`UniformConsensus.DecidesOnce`) |
| UniformConsensus.HandleWith | appia-tutorial/src/irdp/protocols/tutorialDA/uniformHierarchicalConsensus/UniformHierarchicalConsensusSession.java:83-107 | for any advance, a decision is broadcast only when every process is suspected or acknowledged, carrying the proposal held, and a proposal only by the undecided leader of the current round |
| UniformConsensus.HandleAsWritten | appia-tutorial/src/irdp/protocols/tutorialDA/uniformHierarchicalConsensus/UniformHierarchicalConsensusSession.java:83-107 | as written, suspicions are never withdrawn, a crash report that does not raise suspects the process, and the decision and proposal rules hold (`UniformConsensus.AsWrittenRoundStepsByOne`) |
| UniformConsensus.Handle | appia-tutorial/src/irdp/protocols/tutorialDA/uniformHierarchicalConsensus/UniformHierarchicalConsensusSession.java:83-107 | with the corrected advance, suspicions are never withdrawn, a crash report that does not raise suspects the process, and the decision and proposal rules hold (`UniformConsensus.OutputsChecked`) |
| Nbac.Init | appia-tutorial/src/irdp/protocols/tutorialDA/consensusNBAC/ConsensusNBACSession.java:91-93 | a new session has no process set, product 0 and no votes |
| Nbac.Fresh | appia-tutorial/src/irdp/protocols/tutorialDA/consensusNBAC/ConsensusNBACSession.java:95-98 | a fresh instance has no votes and the neutral product 1, keeping the process set |
| Nbac.ScanFrom | appia-tutorial/src/irdp/protocols/tutorialDA/consensusNBAC/ConsensusNBACSession.java:144-156 | the scan does not return early exactly when every correct process from that rank on has voted, and it then finds a crashed process exactly when some listed process from that rank on is not correct |
| Nbac.AllDelivered | appia-tutorial/src/irdp/protocols/tutorialDA/consensusNBAC/ConsensusNBACSession.java:141-170 | a proposal is made exactly when every correct process has voted; it is the product, or 0 when some process crashed, and a fresh instance follows; otherwise nothing changes |
| Nbac.OnDecide | appia-tutorial/src/irdp/protocols/tutorialDA/consensusNBAC/ConsensusNBACSession.java:172-180 | an integer decision goes up unchanged; a decision of another kind raises |
| Nbac.VoteRoundTrip | appia-tutorial/src/irdp/protocols/tutorialDA/consensusNBAC/ConsensusNBACSession.java:121-132 | the vote a process pushes is the vote the others pop |
| Nbac.ProposesOnlyWhenAllVoted | appia-tutorial/src/irdp/protocols/tutorialDA/consensusNBAC/ConsensusNBACSession.java:110-170 | only a crash or a vote leads to a proposal, only once every correct process has voted (the arriving vote included), and a fresh instance follows |
| Nbac.VoteMultiplies | appia-tutorial/src/irdp/protocols/tutorialDA/consensusNBAC/ConsensusNBACSession.java:130-137 | one vote of 0 or 1 makes the product 1 exactly when it was 1 and the vote is 1, and a proposal then made is that product, or 0 when some process crashed |
| Nbac.ProposalIsProduct | appia-tutorial/src/irdp/protocols/tutorialDA/consensusNBAC/ConsensusNBACSession.java:130-137 | while no proposal is made, the product is 1 exactly when it started at 1 and every vote since was 1 |
| Nbac.CommitNeedsUnanimity | appia-tutorial/src/irdp/protocols/tutorialDA/consensusNBAC/ConsensusNBACSession.java:110-170 | a step that proposes commit started with a product of 1, took a vote of 1 if it was a vote, and saw no crashed process |
| Nbac.Handle | appia-tutorial/src/irdp/protocols/tutorialDA/consensusNBAC/ConsensusNBACSession.java:72-89 | a commit decision goes up only for a consensus decision and is that decision; a vote goes down only for the application's vote, and a receiver pops exactly that value (proposals: `Nbac.ProposesOnlyWhenAllVoted`) |
| Nbac.OnCrash | appia-tutorial/src/irdp/protocols/tutorialDA/consensusNBAC/ConsensusNBACSession.java:110-119 | before ProcessInit or for an unknown rank it raises; otherwise the crash is passed on and a proposal follows exactly when every process still believed correct has voted, and that proposal is always 0 (abort), with a fresh instance after it |
| Nbac.OnVote | appia-tutorial/src/irdp/protocols/tutorialDA/consensusNBAC/ConsensusNBACSession.java:121-139 | a vote raises exactly before ProcessInit or without an int on top; otherwise the sender is recorded and the product taken with 32-bit wrap-around, and the product (0 if some process crashed) is proposed exactly when every correct process has voted, starting a fresh instance |
| Trb.Init | appia-tutorial/src/irdp/protocols/tutorialDA/consensusTRB/ConsensusTRBSession.java:93-95 | a new session has no proposal, no process set and no sender |
| Trb.Fresh | appia-tutorial/src/irdp/protocols/tutorialDA/consensusTRB/ConsensusTRBSession.java:108-112 | a fresh instance has no proposal and no sender, keeping the process set |
| Trb.Failed | appia-tutorial/src/irdp/protocols/tutorialDA/consensusTRB/ConsensusTRBSession.java:160-175 | the failure claim is proposed exactly when there is no proposal and the sender is known and no longer believed correct; otherwise nothing changes |
| Trb.OnSendable | appia-tutorial/src/irdp/protocols/tutorialDA/consensusTRB/ConsensusTRBSession.java:144-158 | with a proposal held the message changes nothing; otherwise the first message received becomes the proposal and is proposed |
| Trb.OnDecide | appia-tutorial/src/irdp/protocols/tutorialDA/consensusTRB/ConsensusTRBSession.java:177-205 | a TRB decision is delivered with the sender's address, as nothing for the failure claim and as the message otherwise, and the instance starts over; any other decision passes on |
| Trb.SendRoundTrip | appia-tutorial/src/irdp/protocols/tutorialDA/consensusTRB/ConsensusTRBSession.java:125-158 | the message the sender pushes is the one a fresh process proposes |
| Trb.OnlySenderSends | appia-tutorial/src/irdp/protocols/tutorialDA/consensusTRB/ConsensusTRBSession.java:125-139 | a request sends the message exactly when its sender is a known process and is the local one |
| Trb.ProposalsAppend | appia-tutorial/src/irdp/protocols/tutorialDA/consensusTRB/ConsensusTRBSession.java:150-171 | proposals of two output sequences add up |
| Trb.ProposesOnce | appia-tutorial/src/irdp/protocols/tutorialDA/consensusTRB/ConsensusTRBSession.java:63-175 | within an instance a handler proposes at most once, only while there was no proposal, and then what it proposed is the proposal held |
| Trb.OneProposalPerInstance | appia-tutorial/src/irdp/protocols/tutorialDA/consensusTRB/ConsensusTRBSession.java:144-175 | along any run without a decision or a re-initialisation the process proposes at most once, and not at all when it already held a proposal |
| Trb.FailureClaimMeansCrashed | appia-tutorial/src/irdp/protocols/tutorialDA/consensusTRB/ConsensusTRBSession.java:160-166 | the failure claim is proposed only for a known sender no longer believed correct, and only while there was no proposal |
| Trb.DeliversNothingOnlyForFailure | appia-tutorial/src/irdp/protocols/tutorialDA/consensusTRB/ConsensusTRBSession.java:177-195 | a TRB decision for a known sender is delivered once and starts a fresh instance; the delivery is empty exactly when the decision is the failure claim or carries no message |
| Trb.Handle | appia-tutorial/src/irdp/protocols/tutorialDA/consensusTRB/ConsensusTRBSession.java:63-91 | a delivery comes only from a TRB decision and leaves a fresh instance with no proposal and no sender; a message goes down only for a TRB request and is that request's message (proposals: `Trb.ProposesOnce`) |
| Trb.OnCrash | appia-tutorial/src/irdp/protocols/tutorialDA/consensusTRB/ConsensusTRBSession.java:114-123 | before ProcessInit or for an unknown rank it raises; otherwise the crash is passed on, and the failure claim is proposed and held exactly when nothing was proposed yet and the instance's sender is now not believed correct |
| Trb.OnRequest | appia-tutorial/src/irdp/protocols/tutorialDA/consensusTRB/ConsensusTRBSession.java:125-142 | an unknown sender (the `src.isSelf()` on `null`) or a request before ProcessInit raises; otherwise the sender becomes the instance's sender, a message sent is the request's, first in the output, and a proposal made is the failure claim for a sender not believed correct with nothing proposed yet (`Trb.OnlySenderSends`) |
| ConsensusMembership.Init | appia-tutorial/src/irdp/protocols/tutorialDA/consensusMembership/ConsensusMembershipSession.java:84-86 | a new session has no view, no process set and no view change under way |
| ConsensusMembership.CorrectOnes | appia-tutorial/src/irdp/protocols/tutorialDA/consensusMembership/ConsensusMembershipSession.java:141-145 | the next view's members are processes of the set, each believed correct, and no more of them than the set has |
| ConsensusMembership.SelfRank | appia-tutorial/src/irdp/protocols/tutorialDA/consensusMembership/ConsensusMembershipSession.java:141-145 | the local rank in the next view is a rank holding the local process, or 0 when the local process is not among the members |
| ConsensusMembership.TrimLoop | appia-tutorial/src/irdp/protocols/tutorialDA/consensusMembership/ConsensusMembershipSession.java:139-145 | adding each correct process at the next rank, as the loop does, builds exactly the trimmed membership |
| ConsensusMembership.TrimStep | appia-tutorial/src/irdp/protocols/tutorialDA/consensusMembership/ConsensusMembershipSession.java:141-145 | one more correct process lands one past the end of the trimmed set; a crashed one leaves it as it was |
| ConsensusMembership.NewMembership | appia-tutorial/src/irdp/protocols/tutorialDA/consensusMembership/ConsensusMembershipSession.java:121-158 | with a change under way nothing happens; otherwise the next view, with the next identifier and the trimmed membership, is proposed exactly when a member of the current view is no longer believed correct, and the change is then under way; an empty slot or no view raises |
| ConsensusMembership.FirstView | appia-tutorial/src/irdp/protocols/tutorialDA/consensusMembership/ConsensusMembershipSession.java:88-108 | ProcessInit installs view 0 with every process, ends any change under way and reports the view up |
| ConsensusMembership.CorrectOnesMembers | appia-tutorial/src/irdp/protocols/tutorialDA/consensusMembership/ConsensusMembershipSession.java:141-145 | the next view holds exactly the processes believed correct |
| ConsensusMembership.Origins | appia-tutorial/src/irdp/protocols/tutorialDA/consensusMembership/ConsensusMembershipSession.java:141-145 | each member of the next view comes from a slot of the old set, and the old ranks increase, so the next view keeps the old order |
| ConsensusMembership.TrimmedMembers | appia-tutorial/src/irdp/protocols/tutorialDA/consensusMembership/ConsensusMembershipSession.java:139-149 | the next view's membership has no empty slot and lists exactly the correct processes |
| ConsensusMembership.OneChangeAtATime | appia-tutorial/src/irdp/protocols/tutorialDA/consensusMembership/ConsensusMembershipSession.java:121-170 | while a change is under way a crash report proposes nothing and keeps the view; the decision installs the decided view, reports it up and ends the wait |
| ConsensusMembership.ProposalIsNextView | appia-tutorial/src/irdp/protocols/tutorialDA/consensusMembership/ConsensusMembershipSession.java:110-158 | after a crash report a view is proposed exactly when no change is under way and a member of the current view is no longer believed correct, and the proposal is the next identifier with the trimmed membership |
| ConsensusMembership.Handle | appia-tutorial/src/irdp/protocols/tutorialDA/consensusMembership/ConsensusMembershipSession.java:62-172 | only a crash report proposes, only with no change under way, and the proposal is the next view of the correct processes, which marks a change under way; a decided view ends the change and is installed and reported up (`ConsensusMembership.OneChangeAtATime`, `ProposalIsNextView`) |
| ViewSync.Init | appia-tutorial/src/irdp/protocols/tutorialDA/trbViewSync/TRBViewSyncSession.java:61-75 | a new session has no queued views, nothing delivered, no current or next view, no flush, the application blocked, counters at 0, and no message factory yet |
| ViewSync.MoreViews | appia-tutorial/src/irdp/protocols/tutorialDA/trbViewSync/TRBViewSyncSession.java:210-225 | a flush starts exactly when none is under way and a view is queued: the head of the queue becomes the next view and the application is asked to block; otherwise nothing changes |
| ViewSync.OnView | appia-tutorial/src/irdp/protocols/tutorialDA/trbViewSync/TRBViewSyncSession.java:123-147 | a view with identifier 0 is installed at once and releases the application; any other view joins the back of the queue |
| ViewSync.FrameRoundTrip | appia-tutorial/src/irdp/protocols/tutorialDA/trbViewSync/TRBViewSyncSession.java:177-191 | the receiver pops the view identifier and then the message identifier the sender pushed, and is left with the body |
| ViewSync.Record | appia-tutorial/src/irdp/protocols/tutorialDA/trbViewSync/TRBViewSyncSession.java:161-263 | adding a record makes its key present and adds no other key; a record whose key is already present leaves the set as it is |
| ViewSync.TrbFor | appia-tutorial/src/irdp/protocols/tutorialDA/trbViewSync/TRBViewSyncSession.java:287-305 | a TRB for a member of the current view changes nothing and sends one proposal; an unknown rank or no view raises |
| ViewSync.OnBlockOk | appia-tutorial/src/irdp/protocols/tutorialDA/trbViewSync/TRBViewSyncSession.java:227-251 | a BlockOk blocks the application and restarts the TRB count at 0 |
| ViewSync.RedeliverAll | appia-tutorial/src/irdp/protocols/tutorialDA/trbViewSync/TRBViewSyncSession.java:260-285 | delivering what a TRB carried never removes or changes a record already delivered, and every output is a delivery |
| ViewSync.Ready | appia-tutorial/src/irdp/protocols/tutorialDA/trbViewSync/TRBViewSyncSession.java:311-334 | when blocked, the next view is installed, the flush ends, the application is released and the next queued view is tried; otherwise nothing happens; no TRB is started, and an installed view is the next one, after which the application is unblocked |
| ViewSync.DeliveredKeysAppend | appia-tutorial/src/irdp/protocols/tutorialDA/trbViewSync/TRBViewSyncSession.java:260-285 | the delivery keys of two output sequences concatenate |
| ViewSync.RedeliverOnce | appia-tutorial/src/irdp/protocols/tutorialDA/trbViewSync/TRBViewSyncSession.java:260-285 | the TRB deliveries are distinct, new to the set and recorded after; without a raise the set grows by exactly them |
| ViewSync.BroadcastFresh | appia-tutorial/src/irdp/protocols/tutorialDA/trbViewSync/TRBViewSyncSession.java:149-183 | a local broadcast takes the next identifier, delivers and records its message under a key not delivered before, and sends it with its headers |
| ViewSync.BroadcastDroppedWhenBlocked | appia-tutorial/src/irdp/protocols/tutorialDA/trbViewSync/TRBViewSyncSession.java:149-154 | a broadcast while blocked or before the first view is dropped and takes no identifier |
| ViewSync.TrbDeliversOnce | appia-tutorial/src/irdp/protocols/tutorialDA/trbViewSync/TRBViewSyncSession.java:253-309 | the flush delivers each record it carries at most once, and only records not yet delivered |
| ViewSync.TrbDeliversRedelivered | appia-tutorial/src/irdp/protocols/tutorialDA/trbViewSync/TRBViewSyncSession.java:253-309 | starting the next TRB or getting ready delivers nothing, so a flush delivers exactly what its redelivery delivers and leaves those records delivered |
| ViewSync.FlushNext | appia-tutorial/src/irdp/protocols/tutorialDA/trbViewSync/TRBViewSyncSession.java:287-334 | after a TRB's records are delivered: without a view it raises; a TRB for the next rank is sent only once ChannelInit has set the message factory and otherwise raises with nothing sent; a view is installed only after the last rank, as the next view, unblocking the application; counters and delivered records stay as they were |
| ViewSync.TrbTailDeliversNothing | appia-tutorial/src/irdp/protocols/tutorialDA/trbViewSync/TRBViewSyncSession.java:287-334 | what follows the redelivery of a TRB delivers nothing |
| ViewSync.RcoDeliversOnce | appia-tutorial/src/irdp/protocols/tutorialDA/trbViewSync/TRBViewSyncSession.java:185-208 | a network message is delivered only when its key is new, and it is then recorded |
| ViewSync.DeliversOnce | appia-tutorial/src/irdp/protocols/tutorialDA/trbViewSync/TRBViewSyncSession.java:81-113 | no event removes a delivered record, and every event other than a local broadcast delivers only records new to the set, each once |
| ViewSync.ViewsQueueInOrder | appia-tutorial/src/irdp/protocols/tutorialDA/trbViewSync/TRBViewSyncSession.java:142-225 | a view other than view 0 joins the back of the queue, and a flush starts only when none is under way, for the view at the front |
| ViewSync.FirstViewInstalled | appia-tutorial/src/irdp/protocols/tutorialDA/trbViewSync/TRBViewSyncSession.java:125-141 | view 0 is installed at once, unblocks the application and releases it |
| ViewSync.FlushInRankOrder | appia-tutorial/src/irdp/protocols/tutorialDA/trbViewSync/TRBViewSyncSession.java:253-309 | each TRB is followed by the one for the next rank, where the member proposes its own delivered set and the others the empty set, once ChannelInit has set the message factory, and otherwise raises with nothing sent; after the last one the next view is installed and the application released |
| ViewSync.BlockStartsFlush | appia-tutorial/src/irdp/protocols/tutorialDA/trbViewSync/TRBViewSyncSession.java:227-251 | blocking starts the flush with the TRB for rank 0, where the member at rank 0 proposes what it delivered |
| ViewSync.BroadcastReachesReceivers | appia-tutorial/src/irdp/protocols/tutorialDA/trbViewSync/TRBViewSyncSession.java:157-180 | what a broadcast sends parses back to the current view's identifier, the new message identifier and the body |
| ViewSync.RcoFiltersByView | appia-tutorial/src/irdp/protocols/tutorialDA/trbViewSync/TRBViewSyncSession.java:185-208 | a message of another view is dropped; one of the current view from a member, not yet delivered, is delivered with its body as sent and recorded |
| ViewSync.Handle | appia-tutorial/src/irdp/protocols/tutorialDA/trbViewSync/TRBViewSyncSession.java:81-121 | ChannelInit, and only it, sets the message factory; a view is installed only at the end of a flush, as the view queued next, and leaves the application unblocked; a TRB is started only by BlockOk, which blocks, or by a TRB delivery, which keeps the blocking as it was; broadcasts and network deliveries leave the views, the queue and the flush alone (deliveries: `ViewSync.DeliversOnce`) |
| ViewSync.OnBroadcast | appia-tutorial/src/irdp/protocols/tutorialDA/trbViewSync/TRBViewSyncSession.java:149-183 | a broadcast while blocked or without a view is dropped; a view without a local process raises after the identifier is taken; otherwise the next identifier is taken, the message is delivered locally and recorded, and it is sent with that identifier and the current view's identifier on top (`ViewSync.BroadcastFresh`, `BroadcastReachesReceivers`) |
| ViewSync.OnRcoDeliver | appia-tutorial/src/irdp/protocols/tutorialDA/trbViewSync/TRBViewSyncSession.java:185-208 | only the delivered records change and they only grow; a message of another view is dropped; a delivery is the only output, is of a key not delivered before and now recorded, for a message of the current view, with the sender's address and the body below the headers (`ViewSync.RcoFiltersByView`) |
| ViewSync.OnTrb | appia-tutorial/src/irdp/protocols/tutorialDA/trbViewSync/TRBViewSyncSession.java:253-309 | each TRB raises the count by one and never removes a record; a view is installed only once the TRB of the last member of the current view is done, and it is the view queued next, unblocking the application; a further TRB leaves the blocking as it was and is never sent before ChannelInit: with ranks left and no message factory the delivery raises (`ViewSync.TrbDeliversOnce`, `FlushInRankOrder`) |
| ViewSync.Then | appia-tutorial/src/irdp/protocols/tutorialDA/trbViewSync/TRBViewSyncSession.java:142-146 | a raise in the first step skips the second, as an exception would skip `moreViews`; otherwise the outputs are concatenated in order |
| WaitingCO.Init | appia-tutorial/src/irdp/protocols/tutorialDA/waitingCO/WaitingCOSession.java:65-74 | a new session has no process set, no pending list and no clock |
| WaitingCO.Zeros | appia-tutorial/src/irdp/protocols/tutorialDA/waitingCO/WaitingCOSession.java:143-144 | the clock ProcessInit builds has one zero entry per process |
| WaitingCO.PopClockPush | appia-tutorial/src/irdp/protocols/tutorialDA/waitingCO/WaitingCOSession.java:168-191 | the receiver pops the clock the sender pushed and is left with the application's message |
| WaitingCO.NoneAheadFrom | appia-tutorial/src/irdp/protocols/tutorialDA/waitingCO/WaitingCOSession.java:240-244 | the check holds exactly when no entry of the message's clock other than the sender's is ahead of the local clock |
| WaitingCO.CanDeliver | appia-tutorial/src/irdp/protocols/tutorialDA/waitingCO/WaitingCOSession.java:223-247 | the test raises exactly when the sender is not in the set or the message's clock is shorter than the local one; otherwise it holds exactly when the local clock has seen all but the last message of the sender and no other entry of the message's clock is ahead |
| WaitingCO.Tick | appia-tutorial/src/irdp/protocols/tutorialDA/waitingCO/WaitingCOSession.java:201-203 | a delivery counts one more at the sender's rank unless the local process sent it, and changes no other entry |
| WaitingCO.ScanEntries | appia-tutorial/src/irdp/protocols/tutorialDA/waitingCO/WaitingCOSession.java:266-289 | one pass over the pending entries never lowers an entry of the clock and, without a raise, marks each entry once |
| WaitingCO.Taken | appia-tutorial/src/irdp/protocols/tutorialDA/waitingCO/WaitingCOSession.java:293-298 | the entries kept and the entries taken together number as many as the list |
| WaitingCO.RemoveMarked | appia-tutorial/src/irdp/protocols/tutorialDA/waitingCO/WaitingCOSession.java:291-298 | removing the k-th entry at index k - countRemoved for each marked k leaves exactly the unmarked entries in their order |
| WaitingCO.KeptStep | appia-tutorial/src/irdp/protocols/tutorialDA/waitingCO/WaitingCOSession.java:293-298 | one more entry scanned is kept exactly when it is not marked |
| WaitingCO.CheckOnce | appia-tutorial/src/irdp/protocols/tutorialDA/waitingCO/WaitingCOSession.java:254-298 | one check as written never lowers an entry of the clock |
| WaitingCO.ScanLoop | appia-tutorial/src/irdp/protocols/tutorialDA/waitingCO/WaitingCOSession.java:266-289 | the loop over the pending list computes exactly the scan: entries in list order, each checked against the clock as it stands |
| WaitingCO.CheckPending | appia-tutorial/src/irdp/protocols/tutorialDA/waitingCO/WaitingCOSession.java:254-298 | the two loops of the check one after the other compute exactly one check: one scan, then the removal of the delivered entries |
| WaitingCO.CheckUntilStable | appia-tutorial/src/irdp/protocols/tutorialDA/waitingCO/WaitingCOSession.java:254-298 | the corrected check, repeating scans until one delivers nothing, never lowers an entry of the clock |
| WaitingCO.KeptShrinks | appia-tutorial/src/irdp/protocols/tutorialDA/waitingCO/WaitingCOSession.java:291-298 | removing at least one marked entry shortens the pending list |
| WaitingCO.ClockStartsAtZero | appia-tutorial/src/irdp/protocols/tutorialDA/waitingCO/WaitingCOSession.java:138-152 | after ProcessInit the clock has one zero entry per process of the set |
| WaitingCO.SendTicksOwnEntry | appia-tutorial/src/irdp/protocols/tutorialDA/waitingCO/WaitingCOSession.java:161-177 | a send counts exactly one more at the local rank, changes no other entry, and the message carries the clock so counted |
| WaitingCO.ClockNeverDecreases | appia-tutorial/src/irdp/protocols/tutorialDA/waitingCO/WaitingCOSession.java:93-110 | apart from a new ProcessInit, no event shortens the clock or lowers any of its entries |
| WaitingCO.UndeliverableWaits | appia-tutorial/src/irdp/protocols/tutorialDA/waitingCO/WaitingCOSession.java:208-216 | a message that cannot be delivered is appended to the pending list exactly as it arrived, clock included, and nothing else changes |
| WaitingCO.DeliverableGoesUp | appia-tutorial/src/irdp/protocols/tutorialDA/waitingCO/WaitingCOSession.java:193-207 | a deliverable message goes up first without its clock, the clock counts one more at its sender's rank unless the local process sent it, and then the pending list is checked |
| WaitingCO.ScanDeliversMarked | appia-tutorial/src/irdp/protocols/tutorialDA/waitingCO/WaitingCOSession.java:266-289 | without a raise, the entries a scan delivers are exactly the marked ones, in list order |
| WaitingCO.CheckOnceSplits | appia-tutorial/src/irdp/protocols/tutorialDA/waitingCO/WaitingCOSession.java:254-298 | one check keeps exactly the entries it did not deliver, in their order, and the kept and delivered entries together make up the whole list |
| WaitingCO.QuietScanStable | appia-tutorial/src/irdp/protocols/tutorialDA/waitingCO/WaitingCOSession.java:266-289 | a scan that marks nothing leaves the clock as it was, and every entry is then undeliverable under it |
| WaitingCO.StableLeavesNothingDeliverable | appia-tutorial/src/irdp/protocols/tutorialDA/waitingCO/WaitingCOSession.java:254-298 | after the corrected check every message still pending is undeliverable under the final clock |
| WaitingCO.AsWrittenLeavesDeliverable | appia-tutorial/src/irdp/protocols/tutorialDA/waitingCO/WaitingCOSession.java:266-298 | as written, when a sender's third and second messages wait and its first arrives, the first and second are delivered but the third stays pending although it is deliverable |
| WaitingCO.StableDeliversAll | appia-tutorial/src/irdp/protocols/tutorialDA/waitingCO/WaitingCOSession.java:254-298 | with the corrected check, the same arrival delivers all three messages and leaves nothing pending |
| WaitingCO.OnDown | appia-tutorial/src/irdp/protocols/tutorialDA/waitingCO/WaitingCOSession.java:161-177 | a send raises with nothing changed exactly when the process set or the clock is missing or the local rank is outside the clock; otherwise it counts one more at the local rank only, and the one message sent down carries that clock above the application's message (`WaitingCO.SendTicksOwnEntry`) |
| WaitingCO.OnUp | appia-tutorial/src/irdp/protocols/tutorialDA/waitingCO/WaitingCOSession.java:185-216 | a message whose clock does not pop, or that arrives before ProcessInit, raises with nothing changed; anything delivered is first the arriving message without its clock, and only when its clock is deliverable; a message that waits, without a raise, is exactly one whose test says not yet, appended to the pending list as it arrived (`WaitingCO.UndeliverableWaits`, `DeliverableGoesUp`) |
| WaitingCO.HandleWith | appia-tutorial/src/irdp/protocols/tutorialDA/waitingCO/WaitingCOSession.java:93-110 | whatever check follows a delivery: only ProcessInit changes the process set; a send's message carries the clock as it now stands; only an arrival delivers, and only when the arriving message's clock is deliverable |
| WaitingCO.HandleAsWritten | appia-tutorial/src/irdp/protocols/tutorialDA/waitingCO/WaitingCOSession.java:93-110 | as written, apart from ProcessInit no event shortens the clock or lowers any entry, and only a send goes down, carrying the clock as it now stands (`WaitingCO.AsWrittenLeavesDeliverable`) |
| WaitingCO.Handle | appia-tutorial/src/irdp/protocols/tutorialDA/waitingCO/WaitingCOSession.java:93-110 | with the corrected check, apart from ProcessInit no event shortens the clock or lowers any entry, and only a send goes down, carrying the clock as it now stands (`WaitingCO.StableLeavesNothingDeliverable`) |
| PastList.DecodeEntries | appia-tutorial/src/irdp/protocols/tutorialDA/noWaitingCO/NoWaitingCOSession.java:239-247 | no more entries are decoded than the count says, and all of them when every entry decodes |
| PastList.PopEntryPush | appia-tutorial/src/irdp/protocols/tutorialDA/noWaitingCO/NoWaitingCOSession.java:176-190 | one past entry pops back as the class name, source, sequence number and bytes pushed for it |
| PastList.EntriesRoundTrip | appia-tutorial/src/irdp/protocols/tutorialDA/noWaitingCO/NoWaitingCOSession.java:176-247 | decoding the entries of an encoded past list gives back the list in the sender's order, and the message below it |
| PastList.EncodeRoundTrip | appia-tutorial/src/irdp/protocols/tutorialDA/noWaitingCO/NoWaitingCOSession.java:176-247 | the receiver pops the sequence number, the count and every entry of the sender's past, and is left with the sender's message |
| PastList.IsDelivered | appia-tutorial/src/irdp/protocols/tutorialDA/noWaitingCO/NoWaitingCOSession.java:330-341 | a message counts as delivered exactly when the delivered list has an element with its sender and sequence number |
| PastList.IsDeliveredAppend | appia-tutorial/src/irdp/protocols/tutorialDA/noWaitingCO/NoWaitingCOSession.java:330-341 | a list with one more element holds a pair exactly when the list held it or the new element has it |
| PastList.IsDeliveredPrefix | appia-tutorial/src/irdp/protocols/tutorialDA/noWaitingCO/NoWaitingCOSession.java:330-341 | a longer list holds every pair its prefix holds |
| PastList.AppendFresh | appia-tutorial/src/irdp/protocols/tutorialDA/noWaitingCO/NoWaitingCOSession.java:330-341 | appending an element whose pair is not yet in the list keeps the pairs of the list distinct |
| NoWaitingCO.Init | appia-tutorial/src/irdp/protocols/tutorialDA/noWaitingCO/NoWaitingCOSession.java:60-62 | a new session has no process set, sequence number 0 and no lists |
| NoWaitingCO.CatchUp | appia-tutorial/src/irdp/protocols/tutorialDA/noWaitingCO/NoWaitingCOSession.java:240-289 | the catch-up only appends to the delivered list and to the past |
| NoWaitingCO.SendRecordsOwn | appia-tutorial/src/irdp/protocols/tutorialDA/noWaitingCO/NoWaitingCOSession.java:161-219 | a send carries the past and the current number in the form the receiver decodes; the copy joins the past under the local address and the old number, and the number grows by one |
| NoWaitingCO.DuplicateDiscarded | appia-tutorial/src/irdp/protocols/tutorialDA/noWaitingCO/NoWaitingCOSession.java:233-324 | a message whose sender and number were delivered already is discarded and nothing changes, with or without the correction |
| NoWaitingCO.CatchUpDelivers | appia-tutorial/src/irdp/protocols/tutorialDA/noWaitingCO/NoWaitingCOSession.java:240-289 | the catch-up delivers the carried entries not yet delivered, in list order, each once; the delivered list grows by exactly them and every carried entry is delivered afterwards |
| NoWaitingCO.UpSteps | appia-tutorial/src/irdp/protocols/tutorialDA/noWaitingCO/NoWaitingCOSession.java:228-320 | a message not yet delivered is preceded by the catch-up of its carried entries; when all decode it is delivered, recorded, and added to the past unless it is the local process's own |
| NoWaitingCO.UpEncoded | appia-tutorial/src/irdp/protocols/tutorialDA/noWaitingCO/NoWaitingCOSession.java:228-320 | a message in the form a sender builds: its carried past caught up on, then the message delivered, recorded and added to the past when another process sent it |
| NoWaitingCO.PastBeforeMessage | appia-tutorial/src/irdp/protocols/tutorialDA/noWaitingCO/NoWaitingCOSession.java:228-320 | the deliveries of an arrival are the catch-up's deliveries followed by the message itself, and afterwards every carried entry and the message are recorded as delivered |
| NoWaitingCO.OwnNotReadded | appia-tutorial/src/irdp/protocols/tutorialDA/noWaitingCO/NoWaitingCOSession.java:316-319 | the local process's own message, arriving back, is not added to the past a second time |
| NoWaitingCO.CatchUpKeepsInv | appia-tutorial/src/irdp/protocols/tutorialDA/noWaitingCO/NoWaitingCOSession.java:240-289 | the corrected catch-up, leaving the local process's entries out, keeps the past free of repeats |
| NoWaitingCO.DownKeepsInv | appia-tutorial/src/irdp/protocols/tutorialDA/noWaitingCO/NoWaitingCOSession.java:161-219 | a send keeps the past free of repeats, because its number is above every number the local process used |
| NoWaitingCO.UpKeepsInv | appia-tutorial/src/irdp/protocols/tutorialDA/noWaitingCO/NoWaitingCOSession.java:228-320 | an arrival keeps the past free of repeats under the correction, given that the message does not carry itself in its own past |
| NoWaitingCO.PastHoldsEachOnce | appia-tutorial/src/irdp/protocols/tutorialDA/noWaitingCO/NoWaitingCOSession.java:93-111 | with the correction every event but ProcessInit keeps the past free of repeats, given that no message carries itself in its own past |
| NoWaitingCO.PastDeliveredFromEntries | appia-tutorial/src/irdp/protocols/tutorialDA/noWaitingCO/NoWaitingCOSession.java:240-289 | every delivery of a catch-up is one of the carried entries |
| NoWaitingCO.CarrierPast | appia-tutorial/src/irdp/protocols/tutorialDA/noWaitingCO/NoWaitingCOSession.java:283-286 | when a message of another process carries the local process's own earlier message, the past ends with that message twice as written and once with the correction |
| NoWaitingCO.AsWrittenRepeatsOwn | appia-tutorial/src/irdp/protocols/tutorialDA/noWaitingCO/NoWaitingCOSession.java:283-286 | as written, the catch-up adds the local process's own message to the past a second time |
| NoWaitingCO.CorrectedKeepsOwnOnce | appia-tutorial/src/irdp/protocols/tutorialDA/noWaitingCO/NoWaitingCOSession.java:283-286 | with the correction the same run leaves each message in the past once |
| NoWaitingCO.OnDown | appia-tutorial/src/irdp/protocols/tutorialDA/noWaitingCO/NoWaitingCOSession.java:161-220 | a send raises exactly before ChannelInit (nothing sent or changed) or with an unknown local process; the message goes down decoding to the current number, the past and the application's message; on success the copy joins the past under the old number and the number moves on; the delivered list never changes (`NoWaitingCO.SendRecordsOwn`) |
| NoWaitingCO.OnUp | appia-tutorial/src/irdp/protocols/tutorialDA/noWaitingCO/NoWaitingCOSession.java:228-324 | a message whose number does not pop, or that arrives before ChannelInit, raises with nothing changed; a duplicate changes nothing; the delivered list and the past only grow; every output is a delivery from the carried past of a message not delivered before, or the arriving message last; on success the message is then recorded as delivered (`NoWaitingCO.UpSteps`, `CatchUpDelivers`) |
| NoWaitingCO.HandleWith | appia-tutorial/src/irdp/protocols/tutorialDA/noWaitingCO/NoWaitingCOSession.java:93-111 | with or without the correction, the sequence number never goes back, only a send goes down and it carries the past, only an arrival delivers, and apart from ChannelInit the delivered list only grows |
| NoWaitingCO.HandleAsWritten | appia-tutorial/src/irdp/protocols/tutorialDA/noWaitingCO/NoWaitingCOSession.java:93-111 | as written, the sequence number never goes back, only a send goes down, carrying the past, and apart from ChannelInit the delivered list only grows (`NoWaitingCO.AsWrittenRepeatsOwn`) |
| NoWaitingCO.Handle | appia-tutorial/src/irdp/protocols/tutorialDA/noWaitingCO/NoWaitingCOSession.java:93-111 | with the correction, the same: the number never goes back, only a send goes down, carrying the past, and the delivered list only grows (`NoWaitingCO.PastHoldsEachOnce`) |
| GCPastCO.Init | appia-tutorial/src/irdp/protocols/tutorialDA/gcPastCO/GCPastCOSession.java:65-92 | a new session has no process set, a zero sequence number and no lists until ChannelInit |
| GCPastCO.GetCorrectSize | appia-tutorial/src/irdp/protocols/tutorialDA/gcPastCO/GCPastCOSession.java:523-530 | the count is defined exactly when every slot of the set holds a process, and is then the number of correct processes, at most the set's size |
| GCPastCO.CorrectSizeCounts | appia-tutorial/src/irdp/protocols/tutorialDA/gcPastCO/GCPastCOSession.java:523-530 | the count equals the size of the set exactly when every process is still correct |
| GCPastCO.AckRoundTrip | appia-tutorial/src/irdp/protocols/tutorialDA/gcPastCO/GCPastCOSession.java:408-449 | the receiver of an acknowledgement reads back the sequence number and the sender's address the acknowledging process pushed |
| GCPastCO.FindAck | appia-tutorial/src/irdp/protocols/tutorialDA/gcPastCO/GCPastCOSession.java:452-459 | the search returns the first entry for the message, or -1 when no entry is for it |
| GCPastCO.AcksFirstMatch | appia-tutorial/src/irdp/protocols/tutorialDA/gcPastCO/GCPastCOSession.java:452-459 | when some entry is for the message, the search finds one at or before it |
| GCPastCO.FindOrCreate | appia-tutorial/src/irdp/protocols/tutorialDA/gcPastCO/GCPastCOSession.java:452-467 | the entry returned is for the message: the first existing one, or a new empty entry appended when there is none |
| GCPastCO.FindOrCreateFinds | appia-tutorial/src/irdp/protocols/tutorialDA/gcPastCO/GCPastCOSession.java:452-470 | after an acknowledgement is registered, searching again for the message finds the entry it went to |
| GCPastCO.RegAck | appia-tutorial/src/irdp/protocols/tutorialDA/gcPastCO/GCPastCOSession.java:572-574 | registering appends the address to that entry's list even when already listed, and leaves every other entry unchanged |
| GCPastCO.FindElem | appia-tutorial/src/irdp/protocols/tutorialDA/gcPastCO/GCPastCOSession.java:481-487 | the search of the past returns the first element of that sender and number, or -1 |
| GCPastCO.RemoveFirst | appia-tutorial/src/irdp/protocols/tutorialDA/gcPastCO/GCPastCOSession.java:481-487 | collection removes exactly the first element of that sender and number and keeps the others in order; a past without it is unchanged |
| GCPastCO.RemoveFirstClears | appia-tutorial/src/irdp/protocols/tutorialDA/gcPastCO/GCPastCOSession.java:481-487 | in a past without repeated messages, removing the first copy leaves no copy and keeps the elements distinct |
| GCPastCO.RemoveKeepsInv | appia-tutorial/src/irdp/protocols/tutorialDA/gcPastCO/GCPastCOSession.java:481-487 | removing a message from the past keeps the past invariant |
| GCPastCO.RegisterKeepsDistinct | appia-tutorial/src/irdp/protocols/tutorialDA/gcPastCO/GCPastCOSession.java:452-470 | finding or creating an entry and then registering on it keeps one entry per message |
| GCPastCO.RemoveKeepsDistinct | appia-tutorial/src/irdp/protocols/tutorialDA/gcPastCO/GCPastCOSession.java:476-489 | dropping a completed entry keeps one entry per message |
| GCPastCO.AckAllKeepsDistinct | appia-tutorial/src/irdp/protocols/tutorialDA/gcPastCO/GCPastCOSession.java:377-413 | acknowledging every message delivered from a carried past keeps one entry per message |
| GCPastCO.ArriveKeepsDistinct | appia-tutorial/src/irdp/protocols/tutorialDA/gcPastCO/GCPastCOSession.java:252-371 | the arrival of a fresh message keeps one entry per message |
| GCPastCO.AckKeepsDistinct | appia-tutorial/src/irdp/protocols/tutorialDA/gcPastCO/GCPastCOSession.java:440-505 | an incoming acknowledgement keeps one entry per message |
| GCPastCO.OneEntryPerMessage | appia-tutorial/src/irdp/protocols/tutorialDA/gcPastCO/GCPastCOSession.java:377-489 | whatever the event, the acknowledgement list holds at most one entry per message |
| GCPastCO.SendAgrees | appia-tutorial/src/irdp/protocols/tutorialDA/gcPastCO/GCPastCOSession.java:183-243 | sending puts the whole past on the message, adds the local process's own message to the past under the next number, and leaves deliveries and acknowledgements alone, as in the session without collection |
| GCPastCO.DuplicateDiscarded | appia-tutorial/src/irdp/protocols/tutorialDA/gcPastCO/GCPastCOSession.java:252-261 | a message whose sender and number were delivered already changes nothing and sends no acknowledgement |
| GCPastCO.CrashLeavesPast | appia-tutorial/src/irdp/protocols/tutorialDA/gcPastCO/GCPastCOSession.java:510-521 | a crash clears exactly that process's flag, raising when the rank holds no process, and changes neither the past nor the acknowledgements |
| GCPastCO.AckCountsReceipts | appia-tutorial/src/irdp/protocols/tutorialDA/gcPastCO/GCPastCOSession.java:440-489 | the local process's own acknowledgement is ignored on arrival; any other adds one address to its message's entry, and when the count reaches the number of correct processes the entry is dropped and the message leaves the past |
| GCPastCO.OwnAckRegistered | appia-tutorial/src/irdp/protocols/tutorialDA/gcPastCO/GCPastCOSession.java:344-413 | after a fresh message is delivered, its entry lists the local address last and the acknowledgement for it is the last output |
| GCPastCO.ArriveRegistersOwnAck | appia-tutorial/src/irdp/protocols/tutorialDA/gcPastCO/GCPastCOSession.java:344-413 | an arrival whose carried past decodes, with the local process known, does not raise, finds the message's entry with the local address registered last, and sends the acknowledgement last |
| GCPastCO.UpSteps | appia-tutorial/src/irdp/protocols/tutorialDA/gcPastCO/GCPastCOSession.java:252-371 | a fresh message whose header pops is handled as the catch-up of its decoded past followed by the message |
| GCPastCO.ArriveSteps | appia-tutorial/src/irdp/protocols/tutorialDA/gcPastCO/GCPastCOSession.java:263-371 | a fresh arrival delivers the catch-up's news and acknowledges each, then, when the past decoded, delivers the message, adds it to the past unless the local process sent it, and acknowledges it last |
| GCPastCO.ArriveAccepted | appia-tutorial/src/irdp/protocols/tutorialDA/gcPastCO/GCPastCOSession.java:263-371 | with the local process known and the carried past decoded: the catch-up's news and their acknowledgements, then the message's delivery and its own acknowledgement last; the message joins the past unless the local process sent it, and the local acknowledgement is registered in the message's entry |
| GCPastCO.ArriveRejected | appia-tutorial/src/irdp/protocols/tutorialDA/gcPastCO/GCPastCOSession.java:263-371 | with the local process known and a carried past that does not decode: the catch-up's news are delivered and acknowledged, the message is not, and the handler raises |
| GCPastCO.UpAgrees | appia-tutorial/src/irdp/protocols/tutorialDA/gcPastCO/GCPastCOSession.java:252-371 | collection changes nothing on arrival but the acknowledgements: the delivered list and the past are the ones the session without collection leaves |
| GCPastCO.UpKeepsInv | appia-tutorial/src/irdp/protocols/tutorialDA/gcPastCO/GCPastCOSession.java:252-371 | an arrival keeps the past invariant |
| GCPastCO.AckShape | appia-tutorial/src/irdp/protocols/tutorialDA/gcPastCO/GCPastCOSession.java:440-505 | an acknowledgement never touches the delivered list or the sequence number, and either leaves the past alone or removes the first copy of its message |
| GCPastCO.AckKeepsInv | appia-tutorial/src/irdp/protocols/tutorialDA/gcPastCO/GCPastCOSession.java:440-505 | an acknowledgement keeps the past invariant, and when it changes the past the message is gone from it entirely |
| GCPastCO.CollectionClears | appia-tutorial/src/irdp/protocols/tutorialDA/gcPastCO/GCPastCOSession.java:440-489 | every event but ProcessInit keeps the past invariant, and an acknowledgement that changes the past leaves no copy of its message |
| GCPastCO.AsWrittenKeepsCollected | appia-tutorial/src/irdp/protocols/tutorialDA/gcPastCO/GCPastCOSession.java:312-489 | as written, after the local message comes back in a carried past and every correct process acknowledges it, its entry is gone but a copy stays in the past |
| GCPastCO.CorrectedCollects | appia-tutorial/src/irdp/protocols/tutorialDA/gcPastCO/GCPastCOSession.java:312-489 | with the own message kept out of the past on catch-up, the same acknowledgements leave no copy in the past |
| GCPastCO.SendAckFor | appia-tutorial/src/irdp/protocols/tutorialDA/gcPastCO/GCPastCOSession.java:377-419 | an acknowledgement raises exactly when the local process is unknown, sending nothing then; otherwise exactly one acknowledgement of the message goes out; the list gains at most one entry (`GCPastCO.SendAckForRegisters`) |
| GCPastCO.SendAckForRegisters | appia-tutorial/src/irdp/protocols/tutorialDA/gcPastCO/GCPastCOSession.java:377-419 | after an acknowledgement the search finds the message's entry, the local address registered last when known, the entries of other messages untouched, and the receiver reads back the message's number and sender |
| GCPastCO.AckAll | appia-tutorial/src/irdp/protocols/tutorialDA/gcPastCO/GCPastCOSession.java:274-317 | two outputs per message delivered from a carried past, each a delivery or an acknowledgement and nothing else; the list never shrinks (`GCPastCO.AckAllPairs`, `GCPastCO.AckAllKeepsDistinct`) |
| GCPastCO.AckAllAt | appia-tutorial/src/irdp/protocols/tutorialDA/gcPastCO/GCPastCOSession.java:274-317 | the i-th message delivered from a carried past is output at position 2i and its acknowledgement at 2i+1 |
| GCPastCO.AckAllPairs | appia-tutorial/src/irdp/protocols/tutorialDA/gcPastCO/GCPastCOSession.java:274-317 | each message delivered from a carried past is followed at once by its acknowledgement, in list order |
| GCPastCO.OnDown | appia-tutorial/src/irdp/protocols/tutorialDA/gcPastCO/GCPastCOSession.java:183-244 | a send raises exactly before ChannelInit (nothing sent or changed) or with an unknown local process; the message goes down decoding to the current number, the past and the application's message; on success the copy joins the past and the number moves on; delivered and acknowledgement lists never change (`GCPastCO.SendAgrees`) |
| GCPastCO.OnUp | appia-tutorial/src/irdp/protocols/tutorialDA/gcPastCO/GCPastCOSession.java:252-371 | a message whose number does not pop, or that arrives before ChannelInit, raises with nothing changed; a duplicate changes nothing; the delivered list only grows; nothing is passed on or sent as a message (`GCPastCO.UpSteps`, `DuplicateDiscarded`) |
| GCPastCO.Arrive | appia-tutorial/src/irdp/protocols/tutorialDA/gcPastCO/GCPastCOSession.java:260-368 | a fresh arrival raises exactly when the local process is unknown or the carried past does not decode; with an unknown local process at most one delivery goes out; on success the last two outputs are the message's delivery and then its acknowledgement (`GCPastCO.ArriveSteps`, `OwnAckRegistered`) |
| GCPastCO.ArriveExtendsDelivered | appia-tutorial/src/irdp/protocols/tutorialDA/gcPastCO/GCPastCOSession.java:260-368 | an arrival only appends to the delivered list and outputs only deliveries and acknowledgements |
| GCPastCO.OnAck | appia-tutorial/src/irdp/protocols/tutorialDA/gcPastCO/GCPastCOSession.java:440-502 | an acknowledgement outputs nothing and changes neither the delivered list nor the number; the local process's own changes nothing; it raises exactly with an unknown local process or, for another's, an unparsable acknowledgement, no ChannelInit or an empty slot in the set; the past is unchanged or loses the first copy of the acknowledged message (`GCPastCO.AckCountsReceipts`) |
| GCPastCO.HandleWith | appia-tutorial/src/irdp/protocols/tutorialDA/gcPastCO/GCPastCOSession.java:110-132 | with or without the correction, the number never goes back; only a send goes down, carrying the past; only an arrival delivers or acknowledges; an acknowledgement outputs nothing; a crash leaves past and acknowledgements alone; apart from ChannelInit the delivered list only grows |
| GCPastCO.HandleAsWritten | appia-tutorial/src/irdp/protocols/tutorialDA/gcPastCO/GCPastCOSession.java:110-132 | as written, the number never goes back, only a send goes down, carrying the past, and the delivered list only grows (`GCPastCO.AsWrittenKeepsCollected`) |
| GCPastCO.Handle | appia-tutorial/src/irdp/protocols/tutorialDA/gcPastCO/GCPastCOSession.java:110-132 | with the correction, the same, and collection works (`GCPastCO.CollectionClears`, `OneEntryPerMessage`) |
| GCPastCO.SendKeepsInv | appia-tutorial/src/irdp/protocols/tutorialDA/gcPastCO/GCPastCOSession.java:183-244 | a send keeps the past free of repeats, other processes' messages in it delivered and the local ones numbered below the next number |

## Left out

- Cryptography is an ideal scheme. A signature verifies against exactly the alias and bytes it was made with. SHA1withRSA, Base64 and key-store loading are not modelled.
- `TutorialSigning.VerifySignature`: never raises; a signature string that does not verify gives false. In Java, `decodeBuffer` or `verifySig` can throw on a malformed signature string after `pushString(userAlias)` and before the `popString`, so the alias stays on the message (signing/SignatureSession.java:255-263). Which strings make them throw depends on the Base64 decoder and the RSA provider, which are not modelled. `TutorialSigning.VerifySignatureAndGo` is unaffected: a throw there drops the message, as a failed verification does.
- `CoreEcho.VerifySignature`: never raises, for the same reason (src/core EchoBroadcastSession.java:446-456); a throw there would leave the alias pushed on the echo message.
- `EchoBroadcast.CountVerified`: verifies every slot over the same echo message. In Java a slot whose verification throws is caught (tutorial EchoBroadcastSession.java:366-372) but leaves its alias pushed, so every later slot verifies over different bytes and fails. `EchoBroadcast.CountVerifiedIsSigners` holds only for FINAL messages whose signature strings never make the decoder or the verifier throw.
- `CoreEcho.CountVerified`: the same as the tutorial count (src/core EchoBroadcastSession.java:408-417). `CoreEcho.DeliverFinal` also assumes no slot throws: after a throw the pops at src/core EchoBroadcastSession.java:421-424 would start with the leftover alias, which a typed stack of items cannot represent.
- Appia plumbing is not modelled: channels, QoS, cursors, `go()`/`init()` dispatch and direction flags. A child channel is the instance state at its rank, and emitted events are the `out` list of a `Step`.
- The busy-wait on `ready` in the channels' `echoBroadcast` (a sleep loop) is modelled as a guard: a broadcast while not ready changes nothing.
- `BByzantineConsistentChannelSession.init(String,int,String,String)` calls itself forever and is not modelled.
- `ByzantineChannel.Init`: `bccInit` initialises each faulty instance with `init(processes, rank, usercerts, "123456")` (BByzantineConsistentChannelSession.java:121).
  - That call passes an `int` where the faulty instance's `init` expects a file name, so it matches no declared signature.
  - Read by position, the instance's test case would be "123456", which selects none of test1, test2 and test3. The channel's own `testCase` argument is dropped.
  - The channel model therefore holds the instance state only. The faulty handlers are modelled in `ByzantineEcho`, which takes the test case as a parameter of each handler.
- The tutorial sessions use the tutorial's own `irdp.protocols.tutorialDA.utils.ProcessSet` and `SampleProcess`, which are not part of this model. They are modelled over the `src/core` process set (`ProcessSet`), on the assumption that `getRank`, `getProcess`, `getSelfRank`, `getSelfProcess`, `getAllProcesses`, `getAllSockets`, `setCorrect` and `isCorrect` behave the same. `getAllProcesses` is the raw slot array, empty slots included; `getAllSockets` skips empty slots. The consensus membership's trimmed view follows the `src/core` `addProcess` (ProcessSet.java:160-170).
- The tutorial's other utility classes are not part of this model either, and their behaviour is assumed:
  - `MessageID` (`Stack.MsgId`) is equal exactly when the process number and the sequence number are equal. `LazyRB.DeliveredOnce` and both URBs' `DeliverAtMostOnce` rely on this.
  - A new `MessageEntry` (`UrbEntry.Entry`) holds one cleared ack flag per process of the set.
  - `EBConstants.BOTTOM` is the string "BOTTOM", as the core session's own `bottom` is (EchoBroadcastSession.java:72). `EBConstants.PROCESS_ALIAS_PREFIX` is "process", so rank i's alias is "process" followed by i.
- The core echo session calls `pushValuesToMessage` and `popValuesFromMessage` (src/core EchoBroadcastSession.java:189, 228, 260, 369). The core `EchoBroadcastEvent` declares neither; it has only getters and setters. The model uses the tutorial event's codec for both sessions: an int sequence number, then the echo flag, the final flag and the text, with the text on top. This is the order the core session pushes by hand when it builds a FINAL (EchoBroadcastSession.java:400-403).
- The echo event's text is popped as a plain string (`Wire.PopStr`). Java's `popString` would also return a base64 signature string there. The model has no text form of a signature, so a faulty sender's signature in the text position raises in the model instead of being read as text.
- The tutorial echo instance's `handleProcessInitEvent` (EchoBroadcastSession.java:144-151) is not modelled. It replaces the process set and passes the event on, but leaves `N` and the length of `sigmas` as `init` set them until the next `reset`. The model ties both to the process set's size and takes that set from `init` only.
- Launchers, console applications, `*Layer.java` declarations, `ProcessSet.buildProcessSet` (file reading and DNS lookups) and debug printing are outside the model.
- Timers and real time (the delay timer) are not modelled. A timer tic is an input event.
- The TCP transport is not modelled. A failure of the transport is the input event of `TcpBasedPFD`.
- Serialisation is not modelled: `toByteArray` and re-instantiation through `Class.forName(...).newInstance()` are a `ser` function parameter. A failed re-instantiation or a failed `cloneEvent` (URB, lazy and eager broadcast) is not modelled.
- `EagerPB.Handle`: the random draws of `pickTargets` are a sequence parameter. `None` means the loop does not end within the given draws.
- `UrbEntry.TryDeliver`: the iteration order of the ack table's `values()` is the `order` parameter.
- `ViewSync.Record`: the iteration order of the delivered set sent in a TRB is the sequence the event carries.
- Counters are unbounded integers: sequence numbers, message ids, vector-clock entries, `count_decided`, `trb_done` and request ids. Java `int` wrap-around is modelled only where it changes a result: the `hashCode` of views and messages and NBAC's vote product.
- Java aliasing between sessions is not modelled. Each state is a value:
  - the membership's view and correct set sharing one process set;
  - view synchrony handing TRB the live delivered set;
  - the vector clock array pushed by reference.
- A `null` process set or unset field dereferenced before initialisation is modelled as a raise. This includes NBAC's `delivered` before ProcessInit and the `null` membership of a view. The exception's further effect on Appia is not modelled.
- `WaitingCO.CheckOnce`: on a raise in the middle of a scan the model keeps the pending list as it was. The Java code would have popped the failing entry's clock from its message.
- `PastList.PopEntry` pops the size field of a past entry but does not compare it with the bytes that follow.
- `NoWaitingCO.PastHoldsEachOnce` is proved only for events other than ProcessInit. It assumes no arriving message carries itself in its own past.
- `GCPastCO.CollectionClears` is proved only for events other than ProcessInit. It assumes no arriving message carries itself in its own past.
- `GCPastCO.CrashLeavesPast`: a crash lowers the number of correct processes but does not re-run collection, and the session code does not either. A message whose entry already counts enough acknowledgements stays in the past until the next acknowledgement for it.
- `GCPastCO.AckCountsReceipts`: an acknowledgement from the local process itself is ignored and not forwarded. That is what the code does.
- `ViewSync.DeliversOnce` covers every event except the local broadcast. `ViewSync.BroadcastFresh` covers the broadcast, given identifiers the local process has not used.
- `Nbac.VoteMultiplies` states the product property for votes 0 and 1 only, the only votes the application sends.
- `Nbac.ProposalIsProduct` states the product property for votes 0 and 1 only, the only votes the application sends.
- `Register1NAR.OnProcessInit`: a second ProcessInit appends twenty more write sets while the registers keep using the first twenty. The model keeps the write sets across the re-init accordingly.
- `RegisterNNAR.OnProcessInit`: a second ProcessInit appends twenty more write sets while the registers keep using the first twenty. The model keeps the write sets across the re-init accordingly.
- `SharedRegister.Entry`: a write set holds the process object the set hands out for an ack's source. It is kept as that process's rank, or -1 for an unknown source.
- `HierarchicalConsensus.AdvanceLoop`: the corrected advance restarts at most once per event. A process that suspected every rank would otherwise cycle for ever.
- The faulty echo instance's `testCase` comparisons (`equalsIgnoreCase`) fold ASCII letters and the four non-ASCII characters that fold onto one: long s, the Kelvin sign, and dotted and dotless I. Every other non-ASCII character is compared exactly. This is Java's behaviour whenever one side is ASCII, and the test names are. A `null` test case is modelled as a raise in each override.

## Findings

| source | as written | input that shows it | evidently intended | confidence | as-written member | corrected member |
|---|---|---|---|---|---|---|
| appia-tutorial/src/irdp/protocols/tutorialDA/echobroadcast/EchoBroadcastSession.java:271-316 | `collectEchoReply` counts an ECHO in the bucket of its own sequence number, whatever the round in progress. `reset` clears `sentFinal` but keeps earlier buckets. | A round finishes with a quorum. Then `reset` and a new broadcast happen, and a late ECHO of the finished round arrives with a text echoed once. | Only ECHOs of the round in progress can trigger a FINAL. | not executed | EchoBroadcastStaleRound.LateEchoBlocksCurrentRound | EchoBroadcastStaleRound.CollectEchoReplyCurrentRound |
| src/core/eu/emdc/testing/ProcessSet.java:160-170 | `addProcess` grows the array by one slot only, then writes at rank `pr`. | Adding rank 2 to an empty set fails out of bounds. | The array grows to hold rank `pr`, and the slots in between stay empty. | not executed | ProcessSet.AddProcessPastEndFails | ProcessSet.AddProcessGrowing |
| src/core/net/sf/appia/protocols/echobroadcast/EchoBroadcastSession.java:407-426 | `deliverFinal` counts verifying (alias, signature) slots, so the same alias counts once per slot. | A FINAL whose every slot carries one trusted alias's ECHO signature, at a receiver with at least two members. | Count distinct trusted aliases whose signature verifies. | not executed | CoreEchoProperties.RepeatedSignatureDelivered | CoreEchoProperties.DeliverFinalCorrected |
| src/core/net/sf/appia/protocols/echobroadcast/EchoBroadcastSession.java:41-42 | N is set only in `echoBroadcast`, so an instance that never broadcast keeps N = 0, and the delivery bound is 0. | A non-initiating instance receives a FINAL with one verifying slot and BOTTOM in the others. | The bound is taken from the membership size. | not executed | CoreEchoProperties.NonInitiatorDeliversOnOneSignature | CoreEchoProperties.DeliverFinalCorrected |
| appia-tutorial/src/irdp/protocols/tutorialDA/eagerPB/EagerPBSession.java:107-109 | ProcessInit clamps the fanout to at most N. | A fanout of at least N: `pickTargets` needs N distinct ranks other than its own among N, so its loop never ends. | Clamp to at most N - 1. | not executed | EagerPB.AsWrittenInitStallsBroadcast | EagerPB.ClampedPicks |
| appia-tutorial/src/irdp/protocols/tutorialDA/hierarchicalConsensus/HierarchicalConsensusSession.java:163-171 | The round advances by one per event. | Three processes at rank 2. The crash of rank 1 is reported, then the crash of rank 0: the round stops at 1, whose leader is suspected. | Advance while the leader of the round is suspected or has decided. | not executed | HierarchicalConsensus.AsWrittenStallsOnCrashOrder | HierarchicalConsensus.DecidesOnCrashOrder |
| appia-tutorial/src/irdp/protocols/tutorialDA/uniformHierarchicalConsensus/UniformHierarchicalConsensusSession.java:242-246 | The round advances by one per event. | Three processes at rank 2. The crash of rank 1 is reported, then the crash of rank 0: rank 2 never proposes or decides. | Advance while the leader of the round is suspected or has proposed. | not executed | UniformConsensus.AsWrittenStallsOnCrashOrder | UniformConsensus.DecidesOnCrashOrder |
| appia-tutorial/src/irdp/protocols/tutorialDA/waitingCO/WaitingCOSession.java:264-298 | `checkPending` scans the pending list once. | Messages 3 and 2 of one sender wait in that order, then message 1 arrives: message 3 stays pending although deliverable. | Scan again until nothing more can be delivered. | not executed | WaitingCO.AsWrittenLeavesDeliverable | WaitingCO.StableDeliversAll |
| appia-tutorial/src/irdp/protocols/tutorialDA/noWaitingCO/NoWaitingCOSession.java:283-286 | The catch-up appends every delivered past entry to the past, the local process's own messages included. | The local message 0 comes back inside another process's past before its own copy: it is then in the past twice. | Keep the local process's own messages out of the past on catch-up, as done for the carrying message. | not executed | NoWaitingCO.AsWrittenRepeatsOwn | NoWaitingCO.CorrectedKeepsOwnOnce |
| appia-tutorial/src/irdp/protocols/tutorialDA/gcPastCO/GCPastCOSession.java:312-489 | The catch-up repeats own messages in the past, and collection removes only the first copy and drops the entry. | The same run with three processes, followed by the acknowledgements of the two others: a copy stays in the past for ever. | No copy stays once every correct process has acknowledged. | not executed | GCPastCO.AsWrittenKeepsCollected | GCPastCO.CorrectedCollects |
