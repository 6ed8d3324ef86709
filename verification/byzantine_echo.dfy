/**
 * The deliberately faulty echo broadcast instance. It keeps the state and the
 * ECHO bookkeeping and FINAL verification of the correct instance and
 * overrides three handlers, each switched by the `testCase` text:
 *   test1 - the ECHO carries "fake message" instead of the SEND's text;
 *   test2 - the FINAL carries "fake message" instead of the ECHO's text;
 *   test3 - the SEND to each process carries that process's number as text.
 * `testCase` is read in every override; left null (the inherited `init`
 * does not set it) the read raises.
 */
module ByzantineEcho {
  import opened Common
  import opened Wire
  import opened EchoEvent
  import EB = EchoBroadcast
  import PS = ProcessSet
  import Crypto

  const FAKE: string := "fake message"

  /** `testCase.equalsIgnoreCase(name)` on a non-null `testCase`. */
  predicate IsTest(testCase: string, name: string)
  {
    EqualsIgnoreCase(testCase, name)
  }

  /** The text of the SEND addressed to `p`. */
  function SendText(testCase: string, p: PS.Process, text: Option<string>): Option<string>
  {
    if IsTest(testCase, "test3") then Some(IntToString(p.number)) else text
  }

  /**
   * Whether an iteration of `echoBroadcast`'s loop sends: `testCase` is read
   * first, then under test3 the slot's process number, then the text is
   * pushed and the slot's address read. A null in any of them raises.
   */
  predicate SlotSends(testCase: Option<string>, slot: Option<PS.Process>, text: Option<string>)
  {
    testCase.Some? && slot.Some? && SendText(testCase.value, slot.value, text).Some?
  }

  /**
   * The loop of `echoBroadcast` over `getAllProcesses`, the raw slot array:
   * one SEND per slot, in rank order, until the first iteration that raises;
   * the SENDs to lower ranks have gone out by then.
   */
  function SendAll(procs: seq<Option<PS.Process>>, ev: EchoEvent, seqNo: int, testCase: Option<string>): (r: (seq<EB.Out>, bool))
    ensures |r.0| <= |procs|
    ensures r.1 <==> |r.0| < |procs|
    ensures r.1 ==> !SlotSends(testCase, procs[|r.0|], ev.text)
    ensures r.1 <==> exists i :: 0 <= i < |procs| && !SlotSends(testCase, procs[i], ev.text)
    ensures forall i :: 0 <= i < |r.0| ==>
      && SlotSends(testCase, procs[i], ev.text)
      && r.0[i] == EB.Send(EB.Unicast(procs[i].value.addr),
                           ev.msg + Header(seqNo, false, false, SendText(testCase.value, procs[i].value, ev.text).value))
    decreases |procs|
  {
    if |procs| == 0 then ([], false)
    else if !SlotSends(testCase, procs[0], ev.text) then ([], true)
    else
      var send := ev.(isEcho := false, isFinal := false, seqNo := seqNo, text := SendText(testCase.value, procs[0].value, ev.text));
      var p := PushValues(send).value;
      var rest := SendAll(procs[1..], ev, seqNo, testCase);
      assert forall i :: 1 <= i < |procs| ==> procs[i] == procs[1..][i - 1];
      assert rest.1 ==> !SlotSends(testCase, procs[|rest.0| + 1], ev.text);
      ([EB.Send(EB.Unicast(procs[0].value.addr), p.msg)] + rest.0, rest.1)
  }

  /**
   * `echoBroadcast` of the faulty instance: opens the next round with an empty
   * bucket, as the correct instance does, then unicasts one SEND per slot.
   */
  function Broadcast(s: EB.State, testCase: Option<string>, ev: EchoEvent): (r: EB.Step)
    ensures r.s == EB.Broadcast(s, ev).s
    ensures r.s.sequenceNumber == s.sequenceNumber + 1 && r.s.replyQueue[r.s.sequenceNumber] == []
    ensures r.raised <==> exists i :: 0 <= i < |s.processes.procs| && !SlotSends(testCase, s.processes.procs[i], ev.text)
  {
    var next := s.sequenceNumber + 1;
    var s1 := s.(sequenceNumber := next, replyQueue := s.replyQueue[next := []]);
    var sent := SendAll(s.processes.procs, ev, next, testCase);
    EB.Step(s1, sent.0, sent.1)
  }

  /**
   * Without test3 and with a text, the faulty SENDs are the correct multicast
   * split into unicasts, up to the first empty slot, where the loop raises.
   */
  lemma BroadcastWithoutTest3IsCorrect(s: EB.State, testCase: string, ev: EchoEvent)
    requires ev.text.Some? && !IsTest(testCase, "test3")
    ensures var r := Broadcast(s, Some(testCase), ev);
      var correct := EB.Broadcast(s, ev);
      && !correct.raised
      && (r.raised <==> !PS.Full(s.processes))
      && |r.out| <= |correct.out[0].dest.addrs|
      && (!r.raised ==> |r.out| == |correct.out[0].dest.addrs|)
      && forall i :: 0 <= i < |r.out| ==>
           r.out[i] == EB.Send(EB.Unicast(correct.out[0].dest.addrs[i]), correct.out[0].msg)
  {
    var r := Broadcast(s, Some(testCase), ev);
    var procs := s.processes.procs;
    PS.SocketsFullPrefix(procs, |r.out|);
    if !PS.Full(s.processes) {
      var k :| 0 <= k < |procs| && procs[k].None?;
      assert !SlotSends(Some(testCase), procs[k], ev.text);
    }
  }

  /** Under test3 the initiator equivocates: slots with different process numbers get different texts. */
  lemma Test3Equivocates(s: EB.State, testCase: string, ev: EchoEvent, i: nat, j: nat)
    requires IsTest(testCase, "test3")
    requires var ps := s.processes.procs;
      i < |ps| && j < |ps| && ps[i].Some? && ps[j].Some? && ps[i].value.number != ps[j].value.number
    ensures var r := Broadcast(s, Some(testCase), ev);
      && (r.raised <==> !PS.Full(s.processes))
      && (!r.raised ==> |r.out| == |s.processes.procs|)
      && (i < |r.out| && j < |r.out| ==> r.out[i].msg != r.out[j].msg)
  {
    var ps := s.processes.procs;
    var r := Broadcast(s, Some(testCase), ev);
    if !PS.Full(s.processes) {
      var k :| 0 <= k < |ps| && ps[k].None?;
      assert !SlotSends(Some(testCase), ps[k], ev.text);
    }
    if i < |r.out| && j < |r.out| && r.out[i].msg == r.out[j].msg {
      var ti, tj := IntToString(ps[i].value.number), IntToString(ps[j].value.number);
      var hi, hj := Header(s.sequenceNumber + 1, false, false, ti), Header(s.sequenceNumber + 1, false, false, tj);
      assert (ev.msg + hi)[|ev.msg| + 3] == IStr(ti);
      assert (ev.msg + hj)[|ev.msg| + 3] == IStr(tj);
      IntToStringInjective(ps[i].value.number, ps[j].value.number);
    }
  }

  /**
   * `sendEchoReply` of the faulty instance: the same once-per-sequence-number
   * test and bookkeeping as the correct one, but under test1 the ECHO says
   * "fake message". `sentEcho` is set before `testCase` is read.
   */
  function SendEchoReply(s: EB.State, testCase: Option<string>, source: Addr, ev: EchoEvent): (r: EB.Step)
    requires ev.text.Some?
    ensures EB.AlreadyReplied(s, ev.seqNo) ==> r == EB.Step(s, [], false)
    ensures !EB.AlreadyReplied(s, ev.seqNo) && testCase.None? ==> r == EB.Step(s.(sentEcho := true), [], true)
    ensures !EB.AlreadyReplied(s, ev.seqNo) && testCase.Some? ==>
      r == EB.SendEchoReply(s, source, ev.(text := Some(if IsTest(testCase.value, "test1") then FAKE else ev.text.value)))
    ensures r.s == s.(sentEcho := r.s.sentEcho, replyBuffer := r.s.replyBuffer)
  {
    if EB.AlreadyReplied(s, ev.seqNo) then EB.Step(s, [], false)
    else
      var s1 := s.(sentEcho := true);
      if testCase.None? then EB.Step(s1, [], true)
      else
        var text := if IsTest(testCase.value, "test1") then FAKE else ev.text.value;
        var reply := Fresh().(isEcho := true, seqNo := ev.seqNo, text := Some(text));
        EB.Step(s1.(replyBuffer := s.replyBuffer + [ev.seqNo]), [EB.Send(EB.Unicast(source), PushValues(reply).value.msg)], false)
  }

  /** test1 changes only the ECHO's text: sequence number, destination and the once-only rule stay. */
  lemma Test1OnlyFakesText(s: EB.State, testCase: string, source: Addr, ev: EchoEvent)
    requires ev.text.Some? && IsTest(testCase, "test1") && !EB.AlreadyReplied(s, ev.seqNo)
    ensures var r := SendEchoReply(s, Some(testCase), source, ev);
      && r.out == [EB.Send(EB.Unicast(source), EB.EchoBody(ev.seqNo, FAKE))]
      && r.s == EB.SendEchoReply(s, source, ev).s
      && SendEchoReply(r.s, Some(testCase), source, ev).out == []
  {
  }

  /**
   * `sendFinal` of the faulty instance: `sentFinal` is set before `testCase` is
   * read; under test2 the FINAL says "fake message" over the recorded slots.
   */
  function SendFinal(s: EB.State, testCase: Option<string>, ev: EchoEvent): (r: EB.Step)
    requires EB.Valid(s) && ev.text.Some?
    ensures testCase.None? ==> r == EB.Step(s.(sentFinal := true), [], true)
    ensures testCase.Some? ==>
      r == EB.SendFinal(s, ev.(text := Some(if IsTest(testCase.value, "test2") then FAKE else ev.text.value)))
  {
    var s1 := s.(sentFinal := true);
    if testCase.None? then EB.Step(s1, [], true)
    else
      var text := if IsTest(testCase.value, "test2") then FAKE else ev.text.value;
      var fin := Fresh().(isFinal := true, seqNo := ev.seqNo, text := Some(text), msg := EB.CertificateSlots(s.sigmas));
      EB.Step(s1, [EB.Send(EB.Multicast(PS.GetAllSockets(s.processes)), PushValues(fin).value.msg)], false)
  }

  /** `collectEchoReply`, inherited, calling the faulty `sendFinal`. */
  function CollectEchoReply(s: EB.State, testCase: Option<string>, source: Addr, ev: EchoEvent, sig: Item): (r: EB.Step)
    requires EB.Valid(s) && ev.text.Some? && IsString(sig)
    ensures EB.Valid(r.s)
    ensures s.sentFinal ==> r.out == [] && r.s.sentFinal
    ensures testCase.Some? && !IsTest(testCase.value, "test2") ==> r == EB.CollectEchoReply(s, source, ev, sig)
  {
    var rec := EB.RecordEcho(s, source, ev, sig);
    if rec.finalDue then SendFinal(rec.s, testCase, ev) else EB.Step(rec.s, [], rec.raised)
  }

  /** `pp2pdeliver`, inherited, dispatching to the faulty handlers. */
  function Receive(s: EB.State, testCase: Option<string>, source: Addr, m: Message): (r: EB.Step)
    requires EB.Valid(s)
    ensures EB.Valid(r.s)
    ensures s.sentFinal ==> r.s.sentFinal
    ensures s.delivered ==> r.s.delivered
    ensures testCase.Some? && !IsTest(testCase.value, "test1") && !IsTest(testCase.value, "test2") ==>
      r == EB.Receive(s, source, m)
  {
    match EB.Decode(m)
    case None => EB.Step(s, [], true)
    case Some((sig, ev)) =>
      if ev.isEcho then CollectEchoReply(s, testCase, source, ev, sig)
      else if ev.isFinal then EB.DeliverFinal(s, source, ev)
      else
        assert ev.(text := Some(ev.text.value)) == ev;
        SendEchoReply(s, testCase, source, ev)
  }

  /**
   * The FINAL of test2 does not deliver at a correct receiver whose slots hold
   * only BOTTOM or ECHO signatures over a real text: none of them signs the
   * fake text.
   */
  lemma Test2FinalRejected(receiver: EB.State, source: Addr, seqNo: int, text: string, slots: seq<Item>)
    requires EB.Valid(receiver) && |slots| == EB.N(receiver) && text != FAKE
    requires forall i :: 0 <= i < |slots| ==>
      slots[i] == IStr(EB.BOTTOM) || slots[i] == ISig(Crypto.Sign(EB.ProcessAlias(i), EB.EchoBytes(i, seqNo, text)))
    ensures EB.DeliverFinal(receiver, source, EchoEvent(false, true, seqNo, Some(FAKE), slots)).out == []
  {
    var body := EB.EchoBody(seqNo, FAKE);
    var ev := EchoEvent(false, true, seqNo, Some(FAKE), slots);
    assert ev.msg[..|ev.msg| - EB.N(receiver)] == [];
    assert ev.msg[|ev.msg| - EB.N(receiver)..] == slots;
    assert [] + body == body;
    forall i | 0 <= i < |slots|
      ensures !EB.SignedOver(receiver.trusted, slots[i], i, body)
    {
      assert EB.EchoBytes(i, seqNo, text)[3] == IStr(text);
      assert (body + [IStr(EB.ProcessAlias(i))])[3] == IStr(FAKE);
    }
    CountIdxNone(|slots|, (i: nat) => i < |slots| && EB.SignedOver(receiver.trusted, slots[i], i, body));
  }
}
