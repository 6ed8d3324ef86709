/**
 * Properties of the `src/core` echo broadcast instance: the certificate
 * travels with its pairs matched but mirrored, at most one FINAL and one
 * delivery happen between resets, and the way `deliverFinal` counts lets a
 * single signature deliver. The corrected count below counts the distinct
 * aliases whose ECHO signature verifies, against the membership size.
 */
module CoreEchoProperties {
  import opened Common
  import opened Wire
  import Crypto
  import opened EchoEvent
  import EB = EchoBroadcast
  import PS = ProcessSet
  import CoreSigning
  import opened CoreEcho

  // ---------------------------------------------------------------- the certificate on the wire

  /**
   * The FINAL an initiator sends, signed below and checked at a receiver with
   * the same membership size, unpacks to the initiator's pairs in mirrored
   * rank order: the pair popped first is the one of the highest rank.
   */
  lemma CertificateArrives(initiator: State, ev: EchoEvent, cfg: CoreSigning.Config, receiverCfg: CoreSigning.Config)
    requires Valid(initiator) && ev.text.Some?
    requires cfg.myAlias in receiverCfg.trusted
    ensures var fin := SendFinal(initiator, ev).out[0].msg;
      var up := CoreSigning.Receive(receiverCfg, CoreSigning.Send(cfg, fin));
      && up.Passed? && Decode(up.msg).Some?
      && var (alias, sig, got) := Decode(up.msg).value;
      && alias == IStr(cfg.myAlias) && got.isFinal && !got.isEcho
      && got.seqNo == ev.seqNo && got.text == ev.text
      && var p := PS.Size(initiator.processes);
      && PairsOnTop(got.msg, p)
      && forall i :: 0 <= i < p ==>
           PopPairs(got.msg, p)[i] == SlotPair(initiator.aliases[p - 1 - i], initiator.sigmas[p - 1 - i])
  {
    var pairs := CertificatePairs(initiator);
    var fin := SendFinal(initiator, ev).out[0].msg;
    CoreSigning.SendThenReceive(cfg, receiverCfg, fin);
    var signed := CoreSigning.Send(cfg, fin);
    assert signed == PairItems(pairs) + Header(ev.seqNo, false, true, ev.text.value) + [signed[|fin|], signed[|fin| + 1]];
    DecodeBuilt(PairItems(pairs), ev.seqNo, false, true, ev.text.value, signed[|fin|], signed[|fin| + 1]);
    PairsMirrored([], pairs);
    assert [] + PairItems(pairs) == PairItems(pairs);
    PairItemsStrings(pairs);
  }

  // ---------------------------------------------------------------- at most once

  /** What `sendFinal` emits: the only multicast a receiving instance sends. */
  predicate IsFinalSend(o: Out)
  {
    o.Send? && o.dest.Multicast?
  }

  /** Which handler a decoded message reaches. */
  lemma ReceiveDispatch(s: State, source: Addr, m: Message)
    requires Valid(s) && Decode(m).Some?
    ensures var d := Decode(m).value;
      && (d.2.isEcho ==> Receive(s, source, m) == CollectEchoReply(s, source, d.2, d.0, d.1))
      && (!d.2.isEcho && d.2.isFinal ==> Receive(s, source, m) == DeliverFinal(s, source, d.2))
      && (!d.2.isEcho && !d.2.isFinal ==> Receive(s, source, m) == SendEchoReply(s, source, d.2))
  {
  }

  /** The outputs of one step: a FINAL only when it was not sent before, a delivery only when none was made before. */
  predicate OutputsOnce(s: State, r: Step)
  {
    && ((exists o :: o in r.out && IsFinalSend(o)) ==> !s.sentFinal && r.s.sentFinal)
    && ((exists o :: o in r.out && o.Deliver?) ==> !s.delivered && r.s.delivered)
  }

  lemma CollectOnce(s: State, source: Addr, ev: EchoEvent, alias: Item, sig: Item)
    requires Valid(s) && ev.text.Some? && IsString(alias) && IsString(sig)
    ensures OutputsOnce(s, CollectEchoReply(s, source, ev, alias, sig))
  {
    var c := CollectEchoReply(s, source, ev, alias, sig);
    assert c.out == [] || (!s.sentFinal && c.s.sentFinal && |c.out| == 1 && c.out[0].Send?);
  }

  lemma DeliverOnce(s: State, source: Addr, ev: EchoEvent)
    requires Valid(s) && ev.text.Some?
    ensures OutputsOnce(s, DeliverFinal(s, source, ev))
  {
    var f := DeliverFinal(s, source, ev);
    assert f.out == [] || (!s.delivered && f.s.delivered && |f.out| == 1 && f.out[0].Deliver?);
  }

  lemma EchoOnce(s: State, source: Addr, ev: EchoEvent)
    requires ev.text.Some?
    ensures OutputsOnce(s, SendEchoReply(s, source, ev))
  {
    var e := SendEchoReply(s, source, ev);
    assert e.out == [] || e.out == [Send(EB.Unicast(source), EB.EchoBody(ev.seqNo, ev.text.value))];
  }

  /** A FINAL needs `sentFinal` clear and sets it; a delivery needs `delivered` clear and sets it. */
  lemma ReceiveAtMostOnce(s: State, source: Addr, m: Message)
    requires Valid(s)
    ensures var r := Receive(s, source, m);
      && ((exists o :: o in r.out && IsFinalSend(o)) ==> !s.sentFinal && r.s.sentFinal)
      && ((exists o :: o in r.out && o.Deliver?) ==> !s.delivered && r.s.delivered)
  {
    if Decode(m).Some? {
      var d := Decode(m).value;
      ReceiveDispatch(s, source, m);
      if d.2.isEcho {
        CollectOnce(s, source, d.2, d.0, d.1);
      } else if d.2.isFinal {
        DeliverOnce(s, source, d.2);
      } else {
        EchoOnce(s, source, d.2);
      }
    }
  }

  // ---------------------------------------------------------------- the count as written

  /** `count` copies of one alias with its valid ECHO signature over `body`. */
  function Repeated(alias: string, body: Message, count: nat): (r: seq<(Item, Item)>)
    ensures |r| == count
    ensures forall i :: 0 <= i < count ==> r[i] == (IStr(alias), ISig(Crypto.Sign(alias, body + [IStr(alias)])))
  {
    seq(count, _ => (IStr(alias), ISig(Crypto.Sign(alias, body + [IStr(alias)]))))
  }

  /** A FINAL event after unpacking, holding `pairs` as its certificate above `rest`. */
  function FinalEvent(seqNo: int, text: string, rest: Message, pairs: seq<(Item, Item)>): EchoEvent
  {
    EchoEvent(false, true, seqNo, Some(text), rest + PairItems(pairs))
  }

  /** The pairs of a FINAL are popped back off the stack, mirrored, above the untouched rest. */
  lemma FinalUnpacks(seqNo: int, text: string, rest: Message, pairs: seq<(Item, Item)>)
    requires forall i :: 0 <= i < |pairs| ==> IsString(pairs[i].0) && IsString(pairs[i].1)
    ensures var m := FinalEvent(seqNo, text, rest, pairs).msg;
      && PairsOnTop(m, |pairs|)
      && m[..|m| - 2 * |pairs|] == rest
      && forall i :: 0 <= i < |pairs| ==> PopPairs(m, |pairs|)[i] == pairs[|pairs| - 1 - i]
  {
    var items := PairItems(pairs);
    var m := rest + items;
    PairsMirrored(rest, pairs);
    PairItemsStrings(pairs);
    forall k | |m| - 2 * |pairs| <= k < |m|
      ensures IsString(m[k])
    {
      assert m[k] == items[k - |rest|];
    }
  }

  /**
   * As written: one trusted alias's ECHO signature, repeated in every slot,
   * counts once per slot, so any receiver with at least two members and N at
   * most the membership size delivers a FINAL that a single process signed.
   */
  lemma RepeatedSignatureDelivered(s: State, source: Addr, seqNo: int, text: string, rest: Message, alias: string)
    requires Valid(s) && !s.delivered && alias in s.trusted
    requires PS.Size(s.processes) >= 2 && 0 <= s.n <= PS.Size(s.processes)
    ensures var p := PS.Size(s.processes);
      var ev := FinalEvent(seqNo, text, rest, Repeated(alias, rest + EB.EchoBody(seqNo, text), p));
      DeliverFinal(s, source, ev).out == [Deliver(source, ev.(msg := rest))]
  {
    var p := PS.Size(s.processes);
    var body := rest + EB.EchoBody(seqNo, text);
    var pairs := Repeated(alias, body, p);
    var ev := FinalEvent(seqNo, text, rest, pairs);
    FinalUnpacks(seqNo, text, rest, pairs);
    var popped := PopPairs(ev.msg, p);
    CountIdxAll(p, (i: nat) => SlotVerifies(s.trusted, popped, i, body));
  }

  /**
   * As written: an instance that never broadcast keeps N = 0, so its bound is
   * ceil(0/2) = 0 and one verifying slot among BOTTOMs delivers.
   */
  lemma NonInitiatorDeliversOnOneSignature(s: State, source: Addr, seqNo: int, text: string, rest: Message, alias: string)
    requires Valid(s) && !s.delivered && alias in s.trusted && s.n == 0
    requires PS.Size(s.processes) >= 1
    ensures var p := PS.Size(s.processes);
      var bottoms := seq(p - 1, _ => (IStr(BOTTOM), IStr(BOTTOM)));
      var ev := FinalEvent(seqNo, text, rest, bottoms + Repeated(alias, rest + EB.EchoBody(seqNo, text), 1));
      DeliverFinal(s, source, ev).out == [Deliver(source, ev.(msg := rest))]
  {
    var p := PS.Size(s.processes);
    var body := rest + EB.EchoBody(seqNo, text);
    var pairs := seq(p - 1, _ => (IStr(BOTTOM), IStr(BOTTOM))) + Repeated(alias, body, 1);
    var ev := FinalEvent(seqNo, text, rest, pairs);
    FinalUnpacks(seqNo, text, rest, pairs);
    var popped := PopPairs(ev.msg, p);
    var signed := (IStr(alias), ISig(Crypto.Sign(alias, body + [IStr(alias)])));
    assert pairs[p - 1] == signed;
    assert popped[0] == signed;
    assert ev.msg[..|ev.msg| - 2 * p] + EB.EchoBody(seqNo, text) == body;
    assert SlotVerifies(s.trusted, popped, 0, body);
    CountIdxOne(p, (i: nat) => SlotVerifies(s.trusted, popped, i, body), 0);
  }

  /** Receiving never changes N, so an instance that only receives keeps the N = 0 of `init`. */
  lemma ReceivingKeepsNZero(ps: PS.ProcessSet, trusted: Crypto.TrustStore, source: Addr, m: Message)
    ensures Receive(Init(ps, trusted), source, m).s.n == 0
    ensures Reset(Receive(Init(ps, trusted), source, m).s).n == 0
  {
  }

  // ---------------------------------------------------------------- the count as intended

  /** The aliases, counted once each, whose slot among the first `k` verifies as their ECHO over `echoMsg`. */
  function VerifiedAliases(trusted: Crypto.TrustStore, popped: seq<(Item, Item)>, echoMsg: Message, k: nat): (r: set<string>)
    requires k <= |popped|
  {
    if k == 0 then {}
    else
      VerifiedAliases(trusted, popped, echoMsg, k - 1)
      + (if SlotVerifies(trusted, popped, k - 1, echoMsg) then {popped[k - 1].0.s} else {})
  }

  /** An alias is counted exactly when one of the first `k` slots verifies and carries it. */
  lemma {:induction false} VerifiedAliasesMembers(trusted: Crypto.TrustStore, popped: seq<(Item, Item)>, echoMsg: Message, k: nat)
    requires k <= |popped|
    ensures forall a :: a in VerifiedAliases(trusted, popped, echoMsg, k) <==>
      exists i :: 0 <= i < k && SlotVerifies(trusted, popped, i, echoMsg) && popped[i].0 == IStr(a)
  {
    if k > 0 {
      VerifiedAliasesMembers(trusted, popped, echoMsg, k - 1);
      forall a
        ensures a in VerifiedAliases(trusted, popped, echoMsg, k) <==>
          exists i :: 0 <= i < k && SlotVerifies(trusted, popped, i, echoMsg) && popped[i].0 == IStr(a)
      {
        if exists i :: 0 <= i < k && SlotVerifies(trusted, popped, i, echoMsg) && popped[i].0 == IStr(a) {
          var i :| 0 <= i < k && SlotVerifies(trusted, popped, i, echoMsg) && popped[i].0 == IStr(a);
          if i < k - 1 {
            assert a in VerifiedAliases(trusted, popped, echoMsg, k - 1);
          }
        }
      }
    }
  }

  /** Each verified alias is trusted and its slot holds its own signature over the ECHO. */
  lemma VerifiedAliasSigned(trusted: Crypto.TrustStore, popped: seq<(Item, Item)>, echoMsg: Message, a: string)
    requires a in VerifiedAliases(trusted, popped, echoMsg, |popped|)
    ensures a in trusted
    ensures exists i :: 0 <= i < |popped| && popped[i] == (IStr(a), ISig(Crypto.Sign(a, echoMsg + [IStr(a)])))
  {
    VerifiedAliasesMembers(trusted, popped, echoMsg, |popped|);
    var i :| 0 <= i < |popped| && SlotVerifies(trusted, popped, i, echoMsg) && popped[i].0 == IStr(a);
    Crypto.VerifyOnlySigned(a, echoMsg + [IStr(a)], popped[i].1);
  }

  /** The number of the first `k` slots that verify. */
  function CountSlots(trusted: Crypto.TrustStore, popped: seq<(Item, Item)>, echoMsg: Message, k: nat): (c: nat)
    requires k <= |popped|
    ensures c <= k
  {
    if k == 0 then 0
    else CountSlots(trusted, popped, echoMsg, k - 1) + (if SlotVerifies(trusted, popped, k - 1, echoMsg) then 1 else 0)
  }

  /** Over all slots, it is `deliverFinal`'s `verified` counter. */
  lemma {:induction false} CountSlotsIsVerified(trusted: Crypto.TrustStore, popped: seq<(Item, Item)>, echoMsg: Message, k: nat)
    requires k <= |popped|
    ensures CountSlots(trusted, popped, echoMsg, k) == CountIdx(k, (i: nat) => SlotVerifies(trusted, popped, i, echoMsg))
  {
    if k > 0 {
      CountSlotsIsVerified(trusted, popped, echoMsg, k - 1);
    }
  }

  /** Counting aliases once never exceeds counting slots. */
  lemma {:induction false} VerifiedAliasesAtMostSlots(trusted: Crypto.TrustStore, popped: seq<(Item, Item)>, echoMsg: Message, k: nat)
    requires k <= |popped|
    ensures |VerifiedAliases(trusted, popped, echoMsg, k)| <= CountSlots(trusted, popped, echoMsg, k)
  {
    if k > 0 {
      VerifiedAliasesAtMostSlots(trusted, popped, echoMsg, k - 1);
      var before := VerifiedAliases(trusted, popped, echoMsg, k - 1);
      if SlotVerifies(trusted, popped, k - 1, echoMsg) {
        assert |before + {popped[k - 1].0.s}| <= |before| + 1;
      }
    }
  }

  /**
   * `deliverFinal` as intended: the same pops, but the bound is taken from the
   * membership size and a trusted alias counts once however many slots carry
   * its signature.
   */
  function DeliverFinalCorrected(s: State, source: Addr, ev: EchoEvent): (r: Step)
    requires Valid(s) && ev.text.Some?
    ensures Valid(r.s)
    ensures s.delivered ==> r.out == [] && r.s.delivered
    ensures r.out != [] ==>
      var p := PS.Size(s.processes);
      && !s.delivered && r.s.delivered && PairsOnTop(ev.msg, p)
      && var rest := ev.msg[..|ev.msg| - 2 * p];
      && r.out == [Deliver(source, ev.(msg := rest))]
      && |VerifiedAliases(s.trusted, PopPairs(ev.msg, p), rest + EB.EchoBody(ev.seqNo, ev.text.value), p)| > (p + F + 1) / 2
    ensures PairsOnTop(ev.msg, PS.Size(s.processes)) ==>
      var p := PS.Size(s.processes);
      var rest := ev.msg[..|ev.msg| - 2 * p];
      && !r.raised
      && (!s.delivered && |VerifiedAliases(s.trusted, PopPairs(ev.msg, p), rest + EB.EchoBody(ev.seqNo, ev.text.value), p)| > (p + F + 1) / 2
          ==> r.out == [Deliver(source, ev.(msg := rest))])
    ensures r.raised <==> !PairsOnTop(ev.msg, PS.Size(s.processes))
    ensures r.s.(delivered := s.delivered) == DeliverFinal(s, source, ev).s.(delivered := s.delivered)
  {
    var p := PS.Size(s.processes);
    var asWritten := DeliverFinal(s, source, ev);
    if asWritten.raised then asWritten
    else
      var rest := ev.msg[..|ev.msg| - 2 * p];
      var popped := PopPairs(ev.msg, p);
      var distinct := VerifiedAliases(s.trusted, popped, rest + EB.EchoBody(ev.seqNo, ev.text.value), p);
      var s1 := asWritten.s.(delivered := s.delivered);
      if !s.delivered && |distinct| > (p + F + 1) / 2 then
        Step(s1.(delivered := true), [Deliver(source, ev.(msg := rest))], false)
      else Step(s1, [], false)
  }

  /** When every verifying slot carries one alias, at most that alias is counted. */
  lemma {:induction false} OneAliasCounted(trusted: Crypto.TrustStore, popped: seq<(Item, Item)>, echoMsg: Message, k: nat, alias: string)
    requires k <= |popped|
    requires forall i :: 0 <= i < k && SlotVerifies(trusted, popped, i, echoMsg) ==> popped[i].0 == IStr(alias)
    ensures |VerifiedAliases(trusted, popped, echoMsg, k)| <= 1
    ensures VerifiedAliases(trusted, popped, echoMsg, k) <= {alias}
  {
    if k > 0 {
      OneAliasCounted(trusted, popped, echoMsg, k - 1, alias);
      var a := VerifiedAliases(trusted, popped, echoMsg, k);
      assert a <= {alias};
      if alias in a {
        assert a == {alias};
      } else {
        assert a == {};
      }
    }
  }

  /** Mirroring the pairs keeps every verifying slot on the one alias. */
  lemma MirroredOneAlias(trusted: Crypto.TrustStore, popped: seq<(Item, Item)>, pairs: seq<(Item, Item)>, body: Message, alias: string)
    requires |popped| == |pairs|
    requires forall i :: 0 <= i < |pairs| ==> popped[i] == pairs[|pairs| - 1 - i]
    requires forall i :: 0 <= i < |pairs| && PairVerifies(trusted, pairs[i], body) ==> pairs[i].0 == IStr(alias)
    ensures forall i :: 0 <= i < |popped| && SlotVerifies(trusted, popped, i, body) ==> popped[i].0 == IStr(alias)
  {
    forall i | 0 <= i < |popped| && SlotVerifies(trusted, popped, i, body)
      ensures popped[i].0 == IStr(alias)
    {
      assert popped[i] == pairs[|pairs| - 1 - i];
    }
  }

  /** A certificate in which at most one alias verifies is never delivered with the corrected count. */
  lemma FewAliasesWithheld(s: State, source: Addr, ev: EchoEvent)
    requires Valid(s) && ev.text.Some? && PS.Size(s.processes) >= 1
    requires var p := PS.Size(s.processes);
      2 * p <= |ev.msg|
      && |VerifiedAliases(s.trusted, PopPairs(ev.msg, p), ev.msg[..|ev.msg| - 2 * p] + EB.EchoBody(ev.seqNo, ev.text.value), p)| <= 1
    ensures DeliverFinalCorrected(s, source, ev).out == []
  {
  }

  /**
   * With the corrected count, a certificate whose verifying slots all carry
   * one alias never delivers, whether it repeats that signature or pads it
   * with BOTTOM.
   */
  lemma OneSignerNeverDelivers(s: State, source: Addr, seqNo: int, text: string, rest: Message, pairs: seq<(Item, Item)>, alias: string)
    requires Valid(s) && |pairs| == PS.Size(s.processes) >= 1
    requires forall i :: 0 <= i < |pairs| ==> IsString(pairs[i].0) && IsString(pairs[i].1)
    requires forall i :: 0 <= i < |pairs| && PairVerifies(s.trusted, pairs[i], rest + EB.EchoBody(seqNo, text)) ==>
      pairs[i].0 == IStr(alias)
    ensures DeliverFinalCorrected(s, source, FinalEvent(seqNo, text, rest, pairs)).out == []
  {
    var p := |pairs|;
    var ev := FinalEvent(seqNo, text, rest, pairs);
    FinalUnpacks(seqNo, text, rest, pairs);
    var popped := PopPairs(ev.msg, p);
    var body := rest + EB.EchoBody(seqNo, text);
    var distinct := VerifiedAliases(s.trusted, popped, body, p);
    MirroredOneAlias(s.trusted, popped, pairs, body, alias);
    OneAliasCounted(s.trusted, popped, body, p, alias);
    assert ev.msg[..|ev.msg| - 2 * p] == rest;
    FewAliasesWithheld(s, source, ev);
  }

  /** The corrected count is never above the count as written, so it only ever withholds deliveries. */
  lemma CorrectedDeliversOnlyIfAsWritten(s: State, source: Addr, ev: EchoEvent)
    requires Valid(s) && ev.text.Some? && s.n == PS.Size(s.processes)
    ensures DeliverFinalCorrected(s, source, ev).out != [] ==> DeliverFinal(s, source, ev).out != []
  {
    var p := PS.Size(s.processes);
    if DeliverFinalCorrected(s, source, ev).out != [] {
      var rest := ev.msg[..|ev.msg| - 2 * p];
      VerifiedAliasesAtMostSlots(s.trusted, PopPairs(ev.msg, p), rest + EB.EchoBody(ev.seqNo, ev.text.value), p);
      CountSlotsIsVerified(s.trusted, PopPairs(ev.msg, p), rest + EB.EchoBody(ev.seqNo, ev.text.value), p);
    }
  }
}
