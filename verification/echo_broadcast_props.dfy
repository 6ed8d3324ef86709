/**
 * Properties of the tutorial echo broadcast instance: the FINAL carries the
 * quorum text, at most one FINAL and one delivery between resets, a FINAL
 * built from a certified round is delivered, two certificates for different
 * texts share more than F signers, and the stale-round defect with its
 * correction.
 */
module EchoBroadcastProperties {
  import opened Common
  import opened Wire
  import Crypto
  import TutorialSigning
  import opened EchoEvent
  import opened EchoBroadcast
  import PS = ProcessSet

  // ---------------------------------------------------------------- the FINAL carries the quorum text

  /**
   * While no FINAL has been sent, no collected round has reached a quorum: the
   * first ECHO that gives a text a quorum sends the FINAL.
   */
  predicate OpenRoundsBelowQuorum(s: State)
  {
    !s.sentFinal ==> forall k :: k in s.replyQueue ==> !HasQuorum(s.replyQueue[k], Threshold(s))
  }

  lemma InitOpen(ps: PS.ProcessSet, trusted: Crypto.TrustStore)
    ensures OpenRoundsBelowQuorum(Init(ps, trusted))
  {
  }

  lemma {:induction false} BroadcastKeepsOpen(s: State, ev: EchoEvent)
    requires OpenRoundsBelowQuorum(s)
    ensures OpenRoundsBelowQuorum(Broadcast(s, ev).s)
  {
    var r := Broadcast(s, ev).s;
    if !r.sentFinal {
      forall k | k in r.replyQueue
        ensures !HasQuorum(r.replyQueue[k], Threshold(r))
      {
        if k != r.sequenceNumber {
          assert r.replyQueue[k] == s.replyQueue[k];
        }
      }
    }
  }

  lemma {:induction false} ReceiveKeepsOpen(s: State, source: Addr, m: Message)
    requires Valid(s) && OpenRoundsBelowQuorum(s)
    ensures OpenRoundsBelowQuorum(Receive(s, source, m).s)
  {
    match Decode(m)
    case None =>
    case Some((sig, ev)) =>
      if ev.isEcho {
        var rec := RecordEcho(s, source, ev, sig);
        if !rec.finalDue && !s.sentFinal {
          forall k | k in rec.s.replyQueue
            ensures !HasQuorum(rec.s.replyQueue[k], Threshold(rec.s))
          {
          }
        }
      }
  }

  /**
   * When no collected round has a quorum yet, the text an ECHO brings is the
   * only text that can reach a quorum by it: the FINAL's text (the triggering
   * ECHO's) is then the text that has the quorum.
   */
  lemma {:induction false} FinalCarriesQuorumText(s: State, source: Addr, ev: EchoEvent, sig: Item)
    requires Valid(s) && ev.text.Some? && IsString(sig) && OpenRoundsBelowQuorum(s)
    requires CollectEchoReply(s, source, ev, sig).out != []
    ensures Count(s.replyQueue[ev.seqNo] + [ev.text.value], ev.text.value) > Threshold(s)
    ensures forall y :: Count(s.replyQueue[ev.seqNo] + [ev.text.value], y) > Threshold(s) ==> y == ev.text.value
  {
    var old_ := s.replyQueue[ev.seqNo];
    var b := old_ + [ev.text.value];
    var t := Threshold(s);
    forall y | Count(b, y) > t
      ensures y == ev.text.value
    {
      CountAppend(old_, ev.text.value, y);
    }
    var x :| x in b && Count(b, x) > t;
  }

  // ---------------------------------------------------------------- once per reset

  predicate IsFinalSend(o: Out)
  {
    o.Send? && o.dest.Multicast?
  }

  function CountFinals(out: seq<Out>): nat
  {
    if |out| == 0 then 0 else CountFinals(out[..|out| - 1]) + (if IsFinalSend(out[|out| - 1]) then 1 else 0)
  }

  function CountDeliveries(out: seq<Out>): nat
  {
    if |out| == 0 then 0 else CountDeliveries(out[..|out| - 1]) + (if out[|out| - 1].Deliver? then 1 else 0)
  }

  lemma {:induction false} CountsAppend(a: seq<Out>, b: seq<Out>)
    ensures CountFinals(a + b) == CountFinals(a) + CountFinals(b)
    ensures CountDeliveries(a + b) == CountDeliveries(a) + CountDeliveries(b)
    decreases |b|
  {
    if |b| == 0 {
      assert a + b == a;
    } else {
      assert (a + b)[..|a + b| - 1] == a + b[..|b| - 1];
      assert (a + b)[|a + b| - 1] == b[|b| - 1];
      CountsAppend(a, b[..|b| - 1]);
    }
  }

  /** One received message: a FINAL is sent only if none was, a delivery happens only if none did. */
  lemma ReceiveOnce(s: State, source: Addr, m: Message)
    requires Valid(s)
    ensures var r := Receive(s, source, m);
      && CountFinals(r.out) <= (if s.sentFinal then 0 else 1)
      && (CountFinals(r.out) == 1 ==> r.s.sentFinal)
      && CountDeliveries(r.out) <= (if s.delivered then 0 else 1)
      && (CountDeliveries(r.out) == 1 ==> r.s.delivered)
  {
  }

  /** One step of `Run`. */
  function Next(prev: Step, msg: (Addr, Message)): (r: Step)
    requires Valid(prev.s)
    ensures Valid(r.s)
  {
    var last := Receive(prev.s, msg.0, msg.1);
    Step(last.s, prev.out + last.out, last.raised)
  }

  lemma {:induction false} NextOnce(prev: Step, msg: (Addr, Message))
    requires Valid(prev.s)
    ensures CountFinals(Next(prev, msg).out) <= CountFinals(prev.out) + (if prev.s.sentFinal then 0 else 1)
    ensures CountFinals(Next(prev, msg).out) > CountFinals(prev.out) ==> Next(prev, msg).s.sentFinal
    ensures prev.s.sentFinal ==> Next(prev, msg).s.sentFinal
    ensures CountDeliveries(Next(prev, msg).out) <= CountDeliveries(prev.out) + (if prev.s.delivered then 0 else 1)
    ensures CountDeliveries(Next(prev, msg).out) > CountDeliveries(prev.out) ==> Next(prev, msg).s.delivered
    ensures prev.s.delivered ==> Next(prev, msg).s.delivered
  {
    var last := Receive(prev.s, msg.0, msg.1);
    ReceiveOnce(prev.s, msg.0, msg.1);
    CountsAppend(prev.out, last.out);
  }

  /** The instance after a sequence of received messages, with everything it sent or delivered. */
  function Run(s: State, msgs: seq<(Addr, Message)>): (r: Step)
    requires Valid(s)
    ensures Valid(r.s)
    decreases |msgs|
  {
    if |msgs| == 0 then Step(s, [], false)
    else
      Next(Run(s, msgs[..|msgs| - 1]), msgs[|msgs| - 1])
  }

  /**
   * Between two resets an instance sends at most one FINAL and delivers at
   * most once, whatever it receives.
   */
  lemma {:induction false} AtMostOneFinalAndDelivery(s: State, msgs: seq<(Addr, Message)>)
    requires Valid(s)
    ensures CountFinals(Run(s, msgs).out) <= (if s.sentFinal then 0 else 1)
    ensures CountFinals(Run(s, msgs).out) == 1 ==> Run(s, msgs).s.sentFinal
    ensures CountDeliveries(Run(s, msgs).out) <= (if s.delivered then 0 else 1)
    ensures CountDeliveries(Run(s, msgs).out) == 1 ==> Run(s, msgs).s.delivered
    ensures s.sentFinal ==> Run(s, msgs).s.sentFinal
    ensures s.delivered ==> Run(s, msgs).s.delivered
    decreases |msgs|
  {
    if |msgs| > 0 {
      AtMostOneFinalAndDelivery(s, msgs[..|msgs| - 1]);
      NextOnce(Run(s, msgs[..|msgs| - 1]), msgs[|msgs| - 1]);
    }
  }

  // ---------------------------------------------------------------- from ECHO to delivery

  /** The signature item the process of rank `rank` produces for its ECHO of (`seqNo`, `text`). */
  function EchoSignature(rank: int, seqNo: int, text: string): Item
  {
    ISig(Crypto.Sign(ProcessAlias(rank), EchoBytes(rank, seqNo, text)))
  }

  /**
   * A correct process of rank `i` answers a SEND; its ECHO, signed with its
   * alias and checked by the initiator's signature layer, fills slot `i` of
   * the initiator with exactly `EchoSignature(i, …)`.
   */
  lemma {:induction false} EchoFillsSlot(
    echoer: State, initiator: State, initiatorAddr: Addr, echoerAddr: Addr,
    send: EchoEvent, cfg: TutorialSigning.Config, i: nat)
    requires Valid(initiator) && send.text.Some? && !AlreadyReplied(echoer, send.seqNo)
    requires cfg.pushSignature && ProcessAlias(i) in cfg.trusted
    requires PS.GetRank(initiator.processes, echoerAddr) == i
    requires send.seqNo in initiator.replyQueue
    ensures var echo := SendEchoReply(echoer, initiatorAddr, send).out[0].msg;
            var up := TutorialSigning.VerifySignatureAndGo(cfg, TutorialSigning.AttachSignature(ProcessAlias(i), echo));
            && up.Passed?
            && Receive(initiator, echoerAddr, up.msg).s.sigmas[i] == Some(EchoSignature(i, send.seqNo, send.text.value))
  {
    var echo := SendEchoReply(echoer, initiatorAddr, send).out[0].msg;
    var sender := TutorialSigning.Config(ProcessAlias(i), {}, false);
    TutorialSigning.SignThenVerify(sender, cfg, echo);
    var signed := TutorialSigning.AttachSignature(ProcessAlias(i), echo);
    var up := TutorialSigning.VerifySignatureAndGo(cfg, signed);
    assert up.msg == echo + [signed[|signed| - 1]];
    assert signed[|signed| - 1] == EchoSignature(i, send.seqNo, send.text.value);
    DecodeBuilt([], send.seqNo, true, false, send.text.value, signed[|signed| - 1]);
    assert [] + Header(send.seqNo, true, false, send.text.value) == echo;
  }

  /** Rank `i` holds the ECHO signature of rank `i` for (`seqNo`, `text`). */
  predicate CertifiedSlot(sigmas: seq<Option<Item>>, i: nat, seqNo: int, text: string)
  {
    i < |sigmas| && sigmas[i] == Some(EchoSignature(i, seqNo, text))
  }

  /** Every certified slot of the initiator is a slot the receiver counts as signed. */
  lemma CertifiedSlotsSigned(sigmas: seq<Option<Item>>, trusted: Crypto.TrustStore, seqNo: int, text: string)
    requires forall i :: 0 <= i < |sigmas| ==> ProcessAlias(i) in trusted
    ensures CountIdx(|sigmas|, (i: nat) => CertifiedSlot(sigmas, i, seqNo, text))
            <= CountSigners(trusted, CertificateSlots(sigmas), EchoBody(seqNo, text))
  {
    var slots := CertificateSlots(sigmas);
    var p := (i: nat) => CertifiedSlot(sigmas, i, seqNo, text);
    var q := (i: nat) => i < |slots| && SignedOver(trusted, slots[i], i, EchoBody(seqNo, text));
    forall i | 0 <= i < |sigmas| && p(i)
      ensures q(i)
    {
      assert slots[i] == SlotItem(sigmas[i]);
    }
    CountIdxMono(|sigmas|, p, q);
  }

  /**
   * A FINAL whose slots hold more than floor((N+F)/2) correct ECHO signatures
   * for its own sequence number and text is delivered by a receiver that has
   * not delivered yet.
   */
  lemma {:induction false} CertifiedSlotsDelivered(receiver: State, source: Addr, seqNo: int, text: string, slots: seq<Item>)
    requires Valid(receiver) && |slots| == N(receiver) && !receiver.delivered
    requires forall i :: 0 <= i < |slots| ==> IsString(slots[i])
    requires CountSigners(receiver.trusted, slots, EchoBody(seqNo, text)) > Threshold(receiver)
    ensures DeliverFinal(receiver, source, EchoEvent(false, true, seqNo, Some(text), slots)).out
            == [Deliver(source, EchoEvent(false, true, seqNo, Some(text), []))]
  {
    var n := N(receiver);
    assert slots[..|slots| - n] == [];
    assert slots[|slots| - n..] == slots;
    assert [] + EchoBody(seqNo, text) == EchoBody(seqNo, text);
  }

  /** The FINAL an initiator sends, once through both signature layers, reaches `deliverFinal` with its slots intact. */
  lemma {:induction false} FinalArrives(
    initiator: State, ev: EchoEvent, initiatorAlias: string,
    receiver: State, cfg: TutorialSigning.Config, source: Addr)
    requires Valid(initiator) && Valid(receiver) && ev.text.Some?
    requires cfg.pushSignature && initiatorAlias in cfg.trusted
    ensures var fin := SendFinal(initiator, ev).out[0].msg;
            var up := TutorialSigning.VerifySignatureAndGo(cfg, TutorialSigning.AttachSignature(initiatorAlias, fin));
            && up.Passed?
            && Receive(receiver, source, up.msg)
               == DeliverFinal(receiver, source, EchoEvent(false, true, ev.seqNo, ev.text, CertificateSlots(initiator.sigmas)))
  {
    var text := ev.text.value;
    var slots := CertificateSlots(initiator.sigmas);
    var fin := SendFinal(initiator, ev).out[0].msg;
    assert fin == slots + Header(ev.seqNo, false, true, text);
    var sender := TutorialSigning.Config(initiatorAlias, {}, false);
    TutorialSigning.SignThenVerify(sender, cfg, fin);
    var signed := TutorialSigning.AttachSignature(initiatorAlias, fin);
    var sig := signed[|signed| - 1];
    var up := TutorialSigning.VerifySignatureAndGo(cfg, signed);
    assert up.msg == fin + [sig];
    DecodeBuilt(slots, ev.seqNo, false, true, text, sig);
  }

  /** The certificate of a valid state holds string values only. */
  lemma CertificateSlotsStrings(s: State)
    requires Valid(s)
    ensures forall i :: 0 <= i < |CertificateSlots(s.sigmas)| ==> IsString(CertificateSlots(s.sigmas)[i])
  {
  }

  /**
   * Validity: when more than floor((N+F)/2) slots of the initiator hold
   * correct ECHO signatures for (`seqNo`, `text`), the FINAL it sends, signed
   * and checked by the signature layers, is delivered by any receiver of the
   * same group that trusts those aliases and has not delivered yet.
   */
  lemma {:induction false} CertifiedFinalIsDelivered(
    initiator: State, ev: EchoEvent, initiatorAlias: string,
    receiver: State, cfg: TutorialSigning.Config, source: Addr)
    requires Valid(initiator) && Valid(receiver) && ev.text.Some?
    requires N(receiver) == N(initiator) && !receiver.delivered
    requires cfg.pushSignature && initiatorAlias in cfg.trusted
    requires forall i :: 0 <= i < N(initiator) ==> ProcessAlias(i) in receiver.trusted
    requires CountIdx(N(initiator), (i: nat) => CertifiedSlot(initiator.sigmas, i, ev.seqNo, ev.text.value))
             > Threshold(initiator)
    ensures var fin := SendFinal(initiator, ev).out[0].msg;
            var up := TutorialSigning.VerifySignatureAndGo(cfg, TutorialSigning.AttachSignature(initiatorAlias, fin));
            && up.Passed?
            && Receive(receiver, source, up.msg).out
               == [Deliver(source, EchoEvent(false, true, ev.seqNo, ev.text, []))]
  {
    var text := ev.text.value;
    var slots := CertificateSlots(initiator.sigmas);
    var fin := SendFinal(initiator, ev).out[0].msg;
    var up := TutorialSigning.VerifySignatureAndGo(cfg, TutorialSigning.AttachSignature(initiatorAlias, fin));
    FinalArrives(initiator, ev, initiatorAlias, receiver, cfg, source);
    var certified := EchoEvent(false, true, ev.seqNo, ev.text, slots);
    assert Receive(receiver, source, up.msg) == DeliverFinal(receiver, source, certified);
    CertifiedSlotsSigned(initiator.sigmas, receiver.trusted, ev.seqNo, text);
    CertificateSlotsStrings(initiator);
    CertifiedSlotsDelivered(receiver, source, ev.seqNo, text, slots);
  }

  /**
   * Two certificates for the same round and different texts, each good enough
   * to be delivered, share at least F+1 ranks that signed an ECHO of both
   * texts; with at most F Byzantine processes one of them is correct, which
   * `AtMostOneEchoPerRound` rules out between resets.
   */
  lemma {:induction false} CertificatesOverlap(
    trusted: Crypto.TrustStore, slots1: seq<Item>, slots2: seq<Item>, seqNo: int, t1: string, t2: string)
    requires |slots1| == |slots2|
    requires CountSigners(trusted, slots1, EchoBody(seqNo, t1)) > (|slots1| + F) / 2
    requires CountSigners(trusted, slots2, EchoBody(seqNo, t2)) > (|slots1| + F) / 2
    ensures CountIdx(|slots1|, (i: nat) => (i < |slots1| && SignedOver(trusted, slots1[i], i, EchoBody(seqNo, t1)))
                                        && (i < |slots2| && SignedOver(trusted, slots2[i], i, EchoBody(seqNo, t2))))
            >= F + 1
  {
    var n := |slots1|;
    var p := (i: nat) => i < |slots1| && SignedOver(trusted, slots1[i], i, EchoBody(seqNo, t1));
    var q := (i: nat) => i < |slots2| && SignedOver(trusted, slots2[i], i, EchoBody(seqNo, t2));
    CountIdxOverlap(n, p, q);
    CountIdxExt(n, (i: nat) => p(i) && q(i),
      (i: nat) => (i < |slots1| && SignedOver(trusted, slots1[i], i, EchoBody(seqNo, t1)))
               && (i < |slots2| && SignedOver(trusted, slots2[i], i, EchoBody(seqNo, t2))));
    assert CountIdx(n, p) >= (n + F) / 2 + 1;
  }

  /**
   * `reset` forgets which SENDs were echoed: a SEND answered before the reset
   * is answered again after it, with the same ECHO.
   */
  lemma ResetForgetsEchoes(s: State, source: Addr, ev: EchoEvent)
    requires ev.text.Some?
    ensures var first := SendEchoReply(s, source, ev);
      && SendEchoReply(first.s, source, ev).out == []
      && SendEchoReply(Reset(first.s), source, ev).out == [Send(Unicast(source), EchoBody(ev.seqNo, ev.text.value))]
  {
  }
}
