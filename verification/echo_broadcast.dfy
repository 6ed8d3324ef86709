/**
 * One instance of the tutorial's signed echo broadcast (authenticated echo
 * broadcast with signatures). The initiator sends SEND to every process, each
 * process answers once per sequence number with a signed ECHO, the initiator
 * collects the ECHOs per sequence number and, once more than (N+F)/2 of them
 * carry the same text, multicasts a FINAL holding one signature slot per rank.
 * A receiver of a FINAL counts the slots that verify as the ECHO of the rank's
 * alias and delivers when that count exceeds (N+F)/2.
 *
 * Handlers are pure functions from the instance state to a `Step`: the new
 * state, the events sent or delivered, and whether the Java handler ended by
 * raising an exception (state changes made before the throw are kept).
 */
module EchoBroadcast {
  import opened Common
  import opened Wire
  import Crypto
  import TutorialSigning
  import opened EchoEvent
  import PS = ProcessSet

  /** Number of Byzantine processes tolerated. */
  const F: int := 1

  /** The marker pushed for an empty signature slot. */
  const BOTTOM: string := "BOTTOM"

  /** The prefix of every process alias; the alias of rank `i` is the prefix followed by `i`. */
  const ALIAS_PREFIX: string := "process"

  function ProcessAlias(rank: int): string
  {
    ALIAS_PREFIX + IntToString(rank)
  }

  /**
   * The instance state. `replyBuffer` keeps the sequence numbers of the SENDs
   * already echoed (the only part of a buffered event that is ever read);
   * `replyQueue` keeps, per sequence number, the texts of the ECHOs collected.
   */
  datatype State = State(
    processes: PS.ProcessSet,
    trusted: Crypto.TrustStore,
    sequenceNumber: int,
    sentEcho: bool,
    sentFinal: bool,
    delivered: bool,
    sigmas: seq<Option<Item>>,
    replyBuffer: seq<int>,
    replyQueue: map<int, seq<string>>)

  datatype Dest = Unicast(addr: Addr) | Multicast(addrs: seq<Addr>)

  datatype Out = Send(dest: Dest, msg: Message) | Deliver(source: Addr, ev: EchoEvent)

  datatype Step = Step(s: State, out: seq<Out>, raised: bool)

  /** One signature slot per rank, as `init` and `reset` allocate them, each null or a popped string. */
  predicate Valid(s: State)
  {
    && |s.sigmas| == PS.Size(s.processes)
    && forall i :: 0 <= i < |s.sigmas| && s.sigmas[i].Some? ==> IsString(s.sigmas[i].value)
  }

  function N(s: State): nat
  {
    PS.Size(s.processes)
  }

  /** floor((N+F)/2), the bound both quorums must exceed. */
  function Threshold(s: State): int
  {
    (N(s) + F) / 2
  }

  /** Constructor followed by `init`. */
  function Init(processes: PS.ProcessSet, trusted: Crypto.TrustStore): (s: State)
    ensures Valid(s) && s.processes == processes && s.trusted == trusted
    ensures s.sequenceNumber == 0 && !s.sentEcho && !s.sentFinal && !s.delivered
    ensures s.replyBuffer == [] && s.replyQueue == map[]
    ensures forall i :: 0 <= i < |s.sigmas| ==> s.sigmas[i].None?
  {
    State(processes, trusted, 0, false, false, false, seq(PS.Size(processes), _ => None), [], map[])
  }

  // ---------------------------------------------------------------- wire formats

  /** The message of an ECHO before the signature layer: the reply event starts empty. */
  function EchoBody(seqNo: int, text: string): Message
  {
    Header(seqNo, true, false, text)
  }

  /** The bytes the process of rank `rank` signs when it echoes `text` for round `seqNo`. */
  function EchoBytes(rank: int, seqNo: int, text: string): Message
  {
    EchoBody(seqNo, text) + [IStr(ProcessAlias(rank))]
  }

  /** What `sendFinal` pushes for one slot: the signature, or BOTTOM for an empty slot. */
  function SlotItem(sigma: Option<Item>): Item
  {
    if sigma.Some? then sigma.value else IStr(BOTTOM)
  }

  function CertificateSlots(sigmas: seq<Option<Item>>): (slots: seq<Item>)
    ensures |slots| == |sigmas|
    ensures forall i :: 0 <= i < |sigmas| ==> slots[i] == SlotItem(sigmas[i])
  {
    seq(|sigmas|, i requires 0 <= i < |sigmas| => SlotItem(sigmas[i]))
  }

  /** The message of a FINAL before the signature layer: slots of ranks 0..N-1, then the four values. */
  function FinalBody(seqNo: int, text: string, slots: seq<Item>): Message
  {
    slots + Header(seqNo, false, true, text)
  }

  /**
   * `pp2pdeliver`'s unpacking: pop the signature pushed back by the signature
   * layer, then the four values. A stack that does not hold them raises.
   */
  function Decode(m: Message): (r: Option<(Item, EchoEvent)>)
    ensures r.Some? ==> IsString(r.value.0) && r.value.1.text.Some?
    ensures r.Some? ==>
      m == r.value.1.msg + Header(r.value.1.seqNo, r.value.1.isEcho, r.value.1.isFinal, r.value.1.text.value) + [r.value.0]
  {
    match PopStringItem(m)
    case None => None
    case Some((sig, rest)) =>
      match PopValues(Fresh().(msg := rest))
      case None => None
      case Some(ev) => Some((sig, ev))
  }

  /** Every message decodes back to the header it was built from. */
  lemma DecodeBuilt(body: Message, seqNo: int, isEcho: bool, isFinal: bool, text: string, sig: Item)
    requires IsString(sig)
    ensures Decode(body + Header(seqNo, isEcho, isFinal, text) + [sig])
         == Some((sig, EchoEvent(isEcho, isFinal, seqNo, Some(text), body)))
  {
    var m := body + Header(seqNo, isEcho, isFinal, text) + [sig];
    assert m[..|m| - 1] == body + Header(seqNo, isEcho, isFinal, text);
    var e := Fresh().(msg := m[..|m| - 1]);
    assert PushValues(EchoEvent(isEcho, isFinal, seqNo, Some(text), body)) == Some(e.(isEcho := isEcho, isFinal := isFinal, seqNo := seqNo, text := Some(text)));
  }

  // ---------------------------------------------------------------- broadcast

  /**
   * `echoBroadcast`: opens round `sequenceNumber + 1` with an empty ECHO bucket
   * and multicasts the SEND. A null text makes the push raise after the round
   * was opened.
   */
  function Broadcast(s: State, ev: EchoEvent): (r: Step)
    ensures r.s.sequenceNumber == s.sequenceNumber + 1
    ensures r.s.replyQueue.Keys == s.replyQueue.Keys + {r.s.sequenceNumber}
    ensures r.s.replyQueue[r.s.sequenceNumber] == []
    ensures forall k :: k in s.replyQueue && k != r.s.sequenceNumber ==> r.s.replyQueue[k] == s.replyQueue[k]
    ensures r.s.(sequenceNumber := s.sequenceNumber, replyQueue := s.replyQueue) == s
    ensures r.raised <==> ev.text.None?
    ensures !r.raised ==>
      r.out == [Send(Multicast(PS.GetAllSockets(s.processes)), ev.msg + Header(r.s.sequenceNumber, false, false, ev.text.value))]
  {
    var next := s.sequenceNumber + 1;
    var s1 := s.(sequenceNumber := next, replyQueue := s.replyQueue[next := []]);
    var send := ev.(isEcho := false, isFinal := false, seqNo := next);
    match PushValues(send)
    case None => Step(s1, [], true)
    case Some(p) => Step(s1, [Send(Multicast(PS.GetAllSockets(s.processes)), p.msg)], false)
  }

  // ---------------------------------------------------------------- SEND -> ECHO

  /** `alreadyReplied`: some SEND of this sequence number was echoed already. */
  predicate AlreadyReplied(s: State, seqNo: int)
  {
    seqNo in s.replyBuffer
  }

  /**
   * `sendEchoReply`: answers a SEND with an ECHO of its sequence number and text,
   * addressed to the SEND's source, once per sequence number.
   */
  function SendEchoReply(s: State, source: Addr, ev: EchoEvent): (r: Step)
    requires ev.text.Some?
    ensures AlreadyReplied(s, ev.seqNo) ==> r == Step(s, [], false)
    ensures !AlreadyReplied(s, ev.seqNo) ==>
      r.s == s.(sentEcho := true, replyBuffer := s.replyBuffer + [ev.seqNo])
      && r.out == [Send(Unicast(source), EchoBody(ev.seqNo, ev.text.value))]
      && !r.raised
    ensures AlreadyReplied(r.s, ev.seqNo)
  {
    if AlreadyReplied(s, ev.seqNo) then Step(s, [], false)
    else
      var reply := Fresh().(isEcho := true, seqNo := ev.seqNo, text := ev.text);
      var pushed := PushValues(reply).value;
      Step(s.(sentEcho := true, replyBuffer := s.replyBuffer + [ev.seqNo]), [Send(Unicast(source), pushed.msg)], false)
  }

  /** Between resets a process echoes at most one text per sequence number. */
  lemma AtMostOneEchoPerRound(s: State, src1: Addr, e1: EchoEvent, src2: Addr, e2: EchoEvent)
    requires e1.text.Some? && e2.text.Some? && e1.seqNo == e2.seqNo
    ensures SendEchoReply(SendEchoReply(s, src1, e1).s, src2, e2).out == []
  {
  }

  // ---------------------------------------------------------------- ECHO -> FINAL

  /** Some text occurs more than `t` times among the collected ECHOs. */
  predicate HasQuorum(bucket: seq<string>, t: int)
  {
    exists x :: x in bucket && Count(bucket, x) > t
  }

  /**
   * The search of `collectEchoReply`: the first collected text, from position
   * `i` on, that occurs more than `t` times.
   */
  function FindQuorum(bucket: seq<string>, t: int, i: nat): (r: Option<string>)
    requires i <= |bucket|
    ensures r.Some? ==> r.value in bucket[i..] && Count(bucket, r.value) > t
    ensures r.None? ==> forall j :: i <= j < |bucket| ==> Count(bucket, bucket[j]) <= t
    decreases |bucket| - i
  {
    if i == |bucket| then None
    else if Count(bucket, bucket[i]) > t then Some(bucket[i])
    else FindQuorum(bucket, t, i + 1)
  }

  /** The search succeeds exactly when some text has a quorum. */
  lemma FindQuorumComplete(bucket: seq<string>, t: int)
    ensures FindQuorum(bucket, t, 0).Some? <==> HasQuorum(bucket, t)
    ensures HasQuorum(bucket, t) ==> |bucket| > t
  {
    if HasQuorum(bucket, t) {
      var x :| x in bucket && Count(bucket, x) > t;
      var j :| 0 <= j < |bucket| && bucket[j] == x;
    }
  }

  /**
   * With at most N ECHOs and F >= 0, at most one text can occur more than
   * floor((N+F)/2) times.
   */
  lemma QuorumUnique(bucket: seq<string>, n: nat, f: nat, x: string, y: string)
    requires |bucket| <= n
    requires Count(bucket, x) > (n + f) / 2 && Count(bucket, y) > (n + f) / 2
    ensures x == y
  {
    if x != y {
      CountTwoDistinct(bucket, x, y);
    }
  }

  /** The outcome of recording one ECHO: the new state, whether it raised, whether a FINAL is due. */
  datatype Recorded = Recorded(s: State, raised: bool, finalDue: bool)

  /**
   * The bookkeeping part of `collectEchoReply`: store the signature at the
   * sender's rank, append the text to the round's bucket, and decide whether a
   * FINAL is due. An unknown sender (rank -1) raises before anything changes; a
   * sequence number without a bucket raises after the signature was stored.
   */
  function RecordEcho(s: State, source: Addr, ev: EchoEvent, sig: Item): (r: Recorded)
    requires Valid(s) && ev.text.Some? && IsString(sig)
    ensures Valid(r.s)
    ensures r.s.(sigmas := s.sigmas, replyQueue := s.replyQueue) == s
    ensures PS.GetRank(s.processes, source) < 0 ==> r == Recorded(s, true, false)
    ensures PS.GetRank(s.processes, source) >= 0 ==>
      r.s.sigmas == s.sigmas[PS.GetRank(s.processes, source) := Some(sig)]
    ensures PS.GetRank(s.processes, source) >= 0 && ev.seqNo !in s.replyQueue ==>
      r.raised && !r.finalDue && r.s.replyQueue == s.replyQueue
    ensures PS.GetRank(s.processes, source) >= 0 && ev.seqNo in s.replyQueue ==>
      !r.raised
      && r.s.replyQueue == s.replyQueue[ev.seqNo := s.replyQueue[ev.seqNo] + [ev.text.value]]
      && (r.finalDue <==> !s.sentFinal && HasQuorum(r.s.replyQueue[ev.seqNo], Threshold(s)))
  {
    var rank := PS.GetRank(s.processes, source);
    if rank < 0 then Recorded(s, true, false)
    else
      var s1 := s.(sigmas := s.sigmas[rank := Some(sig)]);
      if ev.seqNo !in s.replyQueue then Recorded(s1, true, false)
      else
        var bucket := s.replyQueue[ev.seqNo] + [ev.text.value];
        var s2 := s1.(replyQueue := s.replyQueue[ev.seqNo := bucket]);
        var t := Threshold(s);
        FindQuorumComplete(bucket, t);
        Recorded(s2, false, |bucket| > t && !s.sentFinal && FindQuorum(bucket, t, 0).Some?)
  }

  /**
   * `sendFinal`: marks the FINAL as sent and multicasts it, carrying the
   * triggering ECHO's sequence number and text and one slot per rank.
   */
  function SendFinal(s: State, ev: EchoEvent): (r: Step)
    requires Valid(s) && ev.text.Some?
    ensures r.s == s.(sentFinal := true) && !r.raised
    ensures r.out == [Send(Multicast(PS.GetAllSockets(s.processes)),
                           FinalBody(ev.seqNo, ev.text.value, CertificateSlots(s.sigmas)))]
  {
    var fin := Fresh().(isFinal := true, seqNo := ev.seqNo, text := ev.text, msg := CertificateSlots(s.sigmas));
    Step(s.(sentFinal := true), [Send(Multicast(PS.GetAllSockets(s.processes)), PushValues(fin).value.msg)], false)
  }

  /** `collectEchoReply`: record the ECHO, then send the FINAL if one is due. */
  function CollectEchoReply(s: State, source: Addr, ev: EchoEvent, sig: Item): (r: Step)
    requires Valid(s) && ev.text.Some? && IsString(sig)
    ensures Valid(r.s)
    ensures s.sentFinal ==> r.out == [] && r.s.sentFinal
    ensures r.out != [] ==> r.s.sentFinal && !s.sentFinal
    ensures r.out != [] ==>
      ev.seqNo in s.replyQueue && HasQuorum(s.replyQueue[ev.seqNo] + [ev.text.value], Threshold(s))
    ensures r.out != [] ==>
      |r.out| == 1 && r.out[0].Send? && r.out[0].dest.Multicast?
      && r.out[0].msg == FinalBody(ev.seqNo, ev.text.value, CertificateSlots(r.s.sigmas))
  {
    var rec := RecordEcho(s, source, ev, sig);
    if rec.finalDue then SendFinal(rec.s, ev) else Step(rec.s, [], rec.raised)
  }

  // ---------------------------------------------------------------- FINAL -> deliver

  /** Slot `i` holds the signature of rank `i`'s alias over `body` with that alias on top. */
  predicate SignedOver(trusted: Crypto.TrustStore, slot: Item, rank: int, body: Message)
  {
    ProcessAlias(rank) in trusted
    && slot == ISig(Crypto.Sign(ProcessAlias(rank), body + [IStr(ProcessAlias(rank))]))
  }

  /** The number of slots that `deliverFinal`'s loop counts as verified. */
  function CountVerified(trusted: Crypto.TrustStore, slots: seq<Item>, echoMsg: Message): nat
  {
    CountIdx(|slots|, (i: nat) => i < |slots| && slots[i] != IStr(BOTTOM)
                                  && TutorialSigning.VerifySignature(echoMsg, ProcessAlias(i), slots[i], trusted).0)
  }

  /** The number of ranks whose alias signed `body` in their slot. */
  function CountSigners(trusted: Crypto.TrustStore, slots: seq<Item>, body: Message): nat
  {
    CountIdx(|slots|, (i: nat) => i < |slots| && SignedOver(trusted, slots[i], i, body))
  }

  /** Skipping BOTTOM slots and verifying the rest counts exactly the ranks that signed. */
  lemma CountVerifiedIsSigners(trusted: Crypto.TrustStore, slots: seq<Item>, echoMsg: Message)
    ensures CountVerified(trusted, slots, echoMsg) == CountSigners(trusted, slots, echoMsg)
  {
    CountIdxExt(|slots|,
      (i: nat) => i < |slots| && slots[i] != IStr(BOTTOM)
                  && TutorialSigning.VerifySignature(echoMsg, ProcessAlias(i), slots[i], trusted).0,
      (i: nat) => i < |slots| && SignedOver(trusted, slots[i], i, echoMsg));
  }

  /** The slots after a FINAL: slot `i` holds the `i`-th signature popped, and nothing else changes. */
  function StoreSlots(s: State, slots: Message): (r: State)
    requires |slots| == N(s) && forall i :: 0 <= i < |slots| ==> IsString(slots[i])
    ensures Valid(r) && r.(sigmas := s.sigmas) == s
    ensures forall i :: 0 <= i < |slots| ==> r.sigmas[i] == Some(slots[i])
    ensures r.sigmas == Stored(slots)
  {
    s.(sigmas := Stored(slots))
  }

  /** One filled signature slot per popped value, in the same order. */
  function Stored(slots: Message): (r: seq<Option<Item>>)
    ensures |r| == |slots| && forall i :: 0 <= i < |slots| ==> r[i] == Some(slots[i])
  {
    seq(|slots|, i requires 0 <= i < |slots| => Some(slots[i]))
  }

  /** The slots stored from the top `n` values of a message are those values, in stack order. */
  lemma StoredTop(m: Message, n: nat)
    requires n <= |m|
    ensures FilledFromTop(Stored(m[|m| - n..]), m, n)
  {
  }

  /** The values popped from strings on top are strings. */
  lemma TopStrings(m: Message, n: nat, slots: Message)
    requires StringsOnTop(m, n) && slots == m[|m| - n..]
    ensures |slots| == n && forall i :: 0 <= i < |slots| ==> IsString(slots[i])
  {
  }

  /** The slots hold the top `n` values of `m`, the topmost in rank n-1. */
  predicate FilledFromTop(sigmas: seq<Option<Item>>, m: Message, n: nat)
  {
    n <= |m| && n <= |sigmas| && forall i :: 0 <= i < n ==> sigmas[i] == Some(m[|m| - n + i])
  }

  /**
   * The slots after the pops of a FINAL on `m` that ran out of string values:
   * the `k` values popped fill ranks N-1 down to N-k, and the lower ranks keep
   * what `s` held.
   */
  predicate KeptPopped(s: State, m: Message, sigmas: seq<Option<Item>>)
  {
    var k := StringRun(m, N(s));
    && |sigmas| == N(s) && |s.sigmas| == N(s)
    && (forall j :: N(s) - k <= j < N(s) ==> sigmas[j] == Some(m[|m| - N(s) + j]))
    && (forall j :: 0 <= j < N(s) - k ==> sigmas[j] == s.sigmas[j])
  }

  /**
   * The slots after a FINAL whose stack runs out of string values after `k`
   * pops: the values popped fill ranks N-1 down to N-k, the lower ranks keep
   * what they held, and nothing else changes.
   */
  function StorePopped(s: State, m: Message, k: nat): (r: State)
    requires Valid(s) && k <= N(s) && k <= |m|
    requires forall j :: |m| - k <= j < |m| ==> IsString(m[j])
    ensures Valid(r) && r.(sigmas := s.sigmas) == s
    ensures forall j :: N(s) - k <= j < N(s) ==> r.sigmas[j] == Some(m[|m| - N(s) + j])
    ensures forall j :: 0 <= j < N(s) - k ==> r.sigmas[j] == s.sigmas[j]
  {
    var n := N(s);
    s.(sigmas := seq(n, j requires 0 <= j < n => if n - k <= j then Some(m[|m| - n + j]) else s.sigmas[j]))
  }

  /** `deliverFinal` on a stack with fewer string values than slots: the pops that succeed fill their slots, then it raises. */
  function DeliverShort(s: State, m: Message): (r: Step)
    requires Valid(s) && StringRun(m, N(s)) < N(s)
    ensures Valid(r.s) && r.s.(sigmas := s.sigmas) == s && r.raised && r.out == []
    ensures KeptPopped(s, m, r.s.sigmas)
  {
    Step(StorePopped(s, m, StringRun(m, N(s))), [], true)
  }

  /** The part of `deliverFinal` after the slots were popped: store them, count, and deliver at most once. */
  function DeliverSlots(s: State, source: Addr, ev: EchoEvent, rest: Message, slots: Message): (r: Step)
    requires Valid(s) && ev.text.Some?
    requires |slots| == N(s) && forall i :: 0 <= i < |slots| ==> IsString(slots[i])
    ensures Valid(r.s) && !r.raised && r.s.(sigmas := s.sigmas, delivered := s.delivered) == s
    ensures r.s.sigmas == Stored(slots)
    ensures s.delivered ==> r.out == [] && r.s.delivered
    ensures r.out != [] <==> !s.delivered && CountSigners(s.trusted, slots, rest + EchoBody(ev.seqNo, ev.text.value)) > Threshold(s)
    ensures r.out != [] ==> r.s.delivered && r.out == [Deliver(source, ev.(msg := rest))]
  {
    var s1 := StoreSlots(s, slots);
    var echoMsg := rest + Header(ev.seqNo, true, false, ev.text.value);
    CountVerifiedIsSigners(s.trusted, slots, echoMsg);
    if !s.delivered && CountVerified(s.trusted, slots, echoMsg) > Threshold(s) then
      Step(s1.(delivered := true), [Deliver(source, ev.(msg := rest))], false)
    else Step(s1, [], false)
  }

  /**
   * The ranks whose slot in a FINAL verifies as their ECHO of the FINAL's
   * sequence number and text over the message below the slots.
   */
  function FinalSigners(s: State, ev: EchoEvent): nat
    requires N(s) <= |ev.msg| && ev.text.Some?
  {
    CountSigners(s.trusted, ev.msg[|ev.msg| - N(s)..], ev.msg[..|ev.msg| - N(s)] + EchoBody(ev.seqNo, ev.text.value))
  }

  /** `deliverFinal` on a stack with a string value for every slot: the slots are the top N values. */
  function DeliverFull(s: State, source: Addr, ev: EchoEvent): (r: Step)
    requires Valid(s) && ev.text.Some? && StringsOnTop(ev.msg, N(s))
    ensures Valid(r.s) && !r.raised && r.s.(sigmas := s.sigmas, delivered := s.delivered) == s
    ensures FilledFromTop(r.s.sigmas, ev.msg, N(s))
    ensures s.delivered ==> r.out == [] && r.s.delivered
    ensures r.out != [] <==> !s.delivered && FinalSigners(s, ev) > Threshold(s)
    ensures r.out != [] ==> r.s.delivered && r.out == [Deliver(source, ev.(msg := ev.msg[..|ev.msg| - N(s)]))]
  {
    var n := N(s);
    var m := ev.msg;
    TopStrings(m, n, m[|m| - n..]);
    StoredTop(m, n);
    assert FinalSigners(s, ev) == CountSigners(s.trusted, m[|m| - n..], m[..|m| - n] + EchoBody(ev.seqNo, ev.text.value));
    DeliverSlots(s, source, ev, m[..|m| - n], m[|m| - n..])
  }

  /**
   * `deliverFinal`: pops one slot per rank (the top one into rank N-1),
   * overwriting `sigmas`, counts the slots that verify as the ECHO of this
   * sequence number and text by the slot's rank, and delivers once when the
   * count exceeds floor((N+F)/2). When the stack holds fewer string values
   * than slots, the `popString` that finds none raises, and the slots filled
   * before it keep their new values.
   */
  function DeliverFinal(s: State, source: Addr, ev: EchoEvent): (r: Step)
    requires Valid(s) && ev.text.Some?
    ensures Valid(r.s) && !r.s.sentFinal == !s.sentFinal
    ensures r.s.(sigmas := s.sigmas, delivered := s.delivered) == s
    ensures s.delivered ==> r.out == [] && r.s.delivered
    ensures r.raised <==> !StringsOnTop(ev.msg, N(s))
    ensures r.raised ==> r.out == [] && StringRun(ev.msg, N(s)) < N(s) && KeptPopped(s, ev.msg, r.s.sigmas)
    ensures !r.raised ==> FilledFromTop(r.s.sigmas, ev.msg, N(s))
    ensures !r.raised && !s.delivered ==> (r.out != [] <==> FinalSigners(s, ev) > Threshold(s))
    ensures r.out != [] ==> r.s.delivered && r.out == [Deliver(source, ev.(msg := ev.msg[..|ev.msg| - N(s)]))]
  {
    if !StringsOnTop(ev.msg, N(s)) then DeliverShort(s, ev.msg) else DeliverFull(s, source, ev)
  }

  // ---------------------------------------------------------------- dispatch and reset

  /**
   * `pp2pdeliver`: unpack, then an ECHO goes to `collectEchoReply`, a FINAL to
   * `deliverFinal` and a SEND to `sendEchoReply`.
   */
  function Receive(s: State, source: Addr, m: Message): (r: Step)
    requires Valid(s)
    ensures Valid(r.s)
    ensures Decode(m).None? ==> r == Step(s, [], true)
    ensures r.s.sequenceNumber == s.sequenceNumber && r.s.processes == s.processes
    ensures s.sentFinal ==> r.s.sentFinal
    ensures s.delivered ==> r.s.delivered
  {
    match Decode(m)
    case None => Step(s, [], true)
    case Some((sig, ev)) =>
      if ev.isEcho then CollectEchoReply(s, source, ev, sig)
      else if ev.isFinal then DeliverFinal(s, source, ev)
      else SendEchoReply(s, source, ev)
  }

  /**
   * `reset`: clears the three flags, the signature slots and the record of
   * echoed SENDs. The sequence number and the collected ECHOs are kept.
   */
  function Reset(s: State): (r: State)
    ensures Valid(r)
    ensures !r.sentEcho && !r.sentFinal && !r.delivered && r.replyBuffer == []
    ensures forall i :: 0 <= i < |r.sigmas| ==> r.sigmas[i].None?
    ensures forall k :: !AlreadyReplied(r, k)
    ensures r.sequenceNumber == s.sequenceNumber && r.replyQueue == s.replyQueue
    ensures r.processes == s.processes && r.trusted == s.trusted
  {
    s.(sentEcho := false, sentFinal := false, delivered := false,
       sigmas := seq(PS.Size(s.processes), _ => None), replyBuffer := [])
  }
}
