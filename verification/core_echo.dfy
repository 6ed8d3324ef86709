/**
 * The older echo broadcast instance of the `src/core` tree. It differs from
 * the tutorial instance in five ways:
 *   - F = 0, and N is a field set from the membership size only when the
 *     instance itself broadcasts, so an instance that never initiated keeps
 *     N = 0;
 *   - an ECHO is stored as an (alias, signature) pair at the sender's rank,
 *     and the FINAL certificate carries one such pair per rank;
 *   - a slot is verified against the alias carried in the certificate, not
 *     against the alias of the slot's rank;
 *   - delivery needs more than ceil((N+F)/2) verified slots;
 *   - `reset` keeps the record of echoed SENDs.
 */
module CoreEcho {
  import opened Common
  import opened Wire
  import Crypto
  import opened EchoEvent
  import EB = EchoBroadcast
  import PS = ProcessSet

  const F: int := 0

  const BOTTOM: string := "BOTTOM"

  datatype State = State(
    processes: PS.ProcessSet,
    trusted: Crypto.TrustStore,
    n: int,
    sequenceNumber: int,
    sentEcho: bool,
    sentFinal: bool,
    delivered: bool,
    aliases: seq<Option<Item>>,
    sigmas: seq<Option<Item>>,
    replyBuffer: seq<int>,
    replyQueue: map<int, seq<string>>)

  /**
   * One alias slot and one signature slot per rank, as the four-argument
   * `init` allocates them. A rank's alias is never written without its
   * signature; a FINAL that runs out of strings between the two pops of a
   * pair leaves a signature beside a null alias.
   */
  predicate Valid(s: State)
  {
    && |s.aliases| == PS.Size(s.processes) && |s.sigmas| == PS.Size(s.processes)
    && forall i :: 0 <= i < |s.aliases| ==>
         && (s.aliases[i].Some? ==> s.sigmas[i].Some? && IsString(s.aliases[i].value))
         && (s.sigmas[i].Some? ==> IsString(s.sigmas[i].value))
  }

  /** The bound a bucket must exceed before a FINAL is sent: (N+F)/2 in Java `int` division. */
  function EchoThreshold(s: State): int
  {
    (s.n + F) / 2
  }

  /** The bound the verified count must exceed: `Math.ceil((N+F)/2.0)` for N+F >= 0. */
  function DeliveryThreshold(s: State): int
  {
    (s.n + F + 1) / 2
  }

  /** The delivery bound is never below the echo bound, and is above it for odd N+F. */
  lemma DeliveryThresholdAtLeastEcho(s: State)
    requires s.n >= 0
    ensures EchoThreshold(s) <= DeliveryThreshold(s)
    ensures (s.n + F) % 2 == 1 ==> EchoThreshold(s) < DeliveryThreshold(s)
  {
  }

  /** Constructor followed by the four-argument `init`. */
  function Init(processes: PS.ProcessSet, trusted: Crypto.TrustStore): (s: State)
    ensures Valid(s) && s.n == 0 && s.sequenceNumber == 0
    ensures !s.sentEcho && !s.sentFinal && !s.delivered
    ensures s.replyBuffer == [] && s.replyQueue == map[]
    ensures forall i :: 0 <= i < |s.aliases| ==> s.aliases[i].None? && s.sigmas[i].None?
  {
    var none := seq(PS.Size(processes), _ => None);
    State(processes, trusted, 0, 0, false, false, false, none, none, [], map[])
  }

  datatype Out = Send(dest: EB.Dest, msg: Message) | Deliver(source: Addr, ev: EchoEvent)

  datatype Step = Step(s: State, out: seq<Out>, raised: bool)

  // ---------------------------------------------------------------- certificate

  /** The pairs pushed one after the other, alias below signature. */
  function PairItems(pairs: seq<(Item, Item)>): (r: seq<Item>)
    ensures |r| == 2 * |pairs|
    ensures forall i :: 0 <= i < |pairs| ==> r[2 * i] == pairs[i].0 && r[2 * i + 1] == pairs[i].1
  {
    seq(2 * |pairs|, k requires 0 <= k < 2 * |pairs| => if k % 2 == 0 then pairs[k / 2].0 else pairs[k / 2].1)
  }

  /**
   * The pairs `deliverFinal` pops off the top of `m`: the signature first, then
   * the alias, `count` times; the first pair popped is the topmost.
   */
  function PopPairs(m: Message, count: nat): (r: seq<(Item, Item)>)
    requires 2 * count <= |m|
    ensures |r| == count
    ensures forall i :: 0 <= i < count ==> r[i] == (m[|m| - 2 - 2 * i], m[|m| - 1 - 2 * i])
  {
    seq(count, i requires 0 <= i < count => (m[|m| - 2 - 2 * i], m[|m| - 1 - 2 * i]))
  }

  /** Popping pushed pairs gives them back matched, but in mirrored rank order. */
  lemma PairsMirrored(rest: Message, pairs: seq<(Item, Item)>)
    ensures var m := rest + PairItems(pairs);
      forall i :: 0 <= i < |pairs| ==> PopPairs(m, |pairs|)[i] == pairs[|pairs| - 1 - i]
  {
    forall i | 0 <= i < |pairs|
      ensures PopPairs(rest + PairItems(pairs), |pairs|)[i] == pairs[|pairs| - 1 - i]
    {
      PairMirrored(rest, pairs, i);
    }
  }

  lemma PairMirrored(rest: Message, pairs: seq<(Item, Item)>, i: nat)
    requires i < |pairs|
    ensures PopPairs(rest + PairItems(pairs), |pairs|)[i] == pairs[|pairs| - 1 - i]
  {
    var items := PairItems(pairs);
    var m := rest + items;
    var j := |pairs| - 1 - i;
    assert |m| - 2 - 2 * i == |rest| + 2 * j;
    assert m[|rest| + 2 * j] == items[2 * j];
    assert m[|rest| + 2 * j + 1] == items[2 * j + 1];
  }

  /** Pairs of string values push only string values. */
  lemma PairItemsStrings(pairs: seq<(Item, Item)>)
    requires forall i :: 0 <= i < |pairs| ==> IsString(pairs[i].0) && IsString(pairs[i].1)
    ensures forall k :: 0 <= k < |PairItems(pairs)| ==> IsString(PairItems(pairs)[k])
  {
    var items := PairItems(pairs);
    forall k | 0 <= k < |items|
      ensures IsString(items[k])
    {
      var i := k / 2;
      if k % 2 == 0 {
        assert k == 2 * i;
      } else {
        assert k == 2 * i + 1;
      }
    }
  }

  /**
   * The pair `sendFinal` pushes for rank `i`: BOTTOM twice when the alias is
   * null, since pushing the null alias throws before anything is pushed.
   */
  function SlotPair(alias: Option<Item>, sigma: Option<Item>): (Item, Item)
    requires alias.Some? ==> sigma.Some?
  {
    if alias.Some? then (alias.value, sigma.value) else (IStr(BOTTOM), IStr(BOTTOM))
  }

  function CertificatePairs(s: State): (r: seq<(Item, Item)>)
    requires Valid(s)
    ensures |r| == PS.Size(s.processes)
    ensures forall i :: 0 <= i < |r| ==> r[i] == SlotPair(s.aliases[i], s.sigmas[i])
  {
    seq(PS.Size(s.processes), i requires 0 <= i < PS.Size(s.processes) => SlotPair(s.aliases[i], s.sigmas[i]))
  }

  function FinalBody(seqNo: int, text: string, pairs: seq<(Item, Item)>): Message
  {
    PairItems(pairs) + Header(seqNo, false, true, text)
  }

  // ---------------------------------------------------------------- handlers

  /**
   * `echoBroadcast`: opens round `sequenceNumber + 1` with an empty bucket,
   * sets N to the membership size and multicasts the SEND. A null text makes
   * the push raise after that.
   */
  function Broadcast(s: State, ev: EchoEvent): (r: Step)
    ensures r.s.sequenceNumber == s.sequenceNumber + 1
    ensures r.s.n == PS.Size(s.processes)
    ensures r.s.replyQueue == s.replyQueue[r.s.sequenceNumber := []]
    ensures r.s.(n := s.n, sequenceNumber := s.sequenceNumber, replyQueue := s.replyQueue) == s
    ensures r.raised <==> ev.text.None?
    ensures !r.raised ==>
      r.out == [Send(EB.Multicast(PS.GetAllSockets(s.processes)), ev.msg + Header(r.s.sequenceNumber, false, false, ev.text.value))]
  {
    var next := s.sequenceNumber + 1;
    var s1 := s.(sequenceNumber := next, n := PS.Size(s.processes), replyQueue := s.replyQueue[next := []]);
    match PushValues(ev.(isEcho := false, isFinal := false, seqNo := next))
    case None => Step(s1, [], true)
    case Some(p) => Step(s1, [Send(EB.Multicast(PS.GetAllSockets(s.processes)), p.msg)], false)
  }

  predicate AlreadyReplied(s: State, seqNo: int)
  {
    seqNo in s.replyBuffer
  }

  /** `sendEchoReply`: one ECHO per sequence number, back to the SEND's source. */
  function SendEchoReply(s: State, source: Addr, ev: EchoEvent): (r: Step)
    requires ev.text.Some?
    ensures AlreadyReplied(s, ev.seqNo) ==> r == Step(s, [], false)
    ensures !AlreadyReplied(s, ev.seqNo) ==>
      r == Step(s.(sentEcho := true, replyBuffer := s.replyBuffer + [ev.seqNo]),
                [Send(EB.Unicast(source), EB.EchoBody(ev.seqNo, ev.text.value))], false)
    ensures AlreadyReplied(r.s, ev.seqNo)
  {
    if AlreadyReplied(s, ev.seqNo) then Step(s, [], false)
    else
      var reply := Fresh().(isEcho := true, seqNo := ev.seqNo, text := ev.text);
      Step(s.(sentEcho := true, replyBuffer := s.replyBuffer + [ev.seqNo]),
           [Send(EB.Unicast(source), PushValues(reply).value.msg)], false)
  }

  /**
   * `sendFinal`: marks the FINAL as sent and multicasts the triggering ECHO's
   * sequence number and text over one (alias, signature) pair per rank.
   */
  function SendFinal(s: State, ev: EchoEvent): (r: Step)
    requires Valid(s) && ev.text.Some?
    ensures r.s == s.(sentFinal := true) && !r.raised
    ensures r.out == [Send(EB.Multicast(PS.GetAllSockets(s.processes)), FinalBody(ev.seqNo, ev.text.value, CertificatePairs(s)))]
  {
    var fin := Fresh().(isFinal := true, seqNo := ev.seqNo, text := ev.text, msg := PairItems(CertificatePairs(s)));
    Step(s.(sentFinal := true), [Send(EB.Multicast(PS.GetAllSockets(s.processes)), PushValues(fin).value.msg)], false)
  }

  /** Storing a pair of strings at a rank in range keeps the pair slots valid. */
  lemma StorePairValid(s: State, rank: int, alias: Item, sig: Item)
    requires Valid(s) && 0 <= rank < PS.Size(s.processes) && IsString(alias) && IsString(sig)
    ensures Valid(s.(aliases := s.aliases[rank := Some(alias)], sigmas := s.sigmas[rank := Some(sig)]))
  {
  }

  /**
   * `collectEchoReply`: stores the pair at the sender's rank, appends the text
   * to the round's bucket and, when the bucket holds more than (N+F)/2 ECHOs,
   * some text among them more than (N+F)/2 times, and no FINAL was sent, sends
   * the FINAL. An unknown sender raises before anything changes; a round
   * without a bucket raises after the pair was stored.
   */
  function CollectEchoReply(s: State, source: Addr, ev: EchoEvent, alias: Item, sig: Item): (r: Step)
    requires Valid(s) && ev.text.Some? && IsString(alias) && IsString(sig)
    ensures Valid(r.s)
    ensures r.s.(aliases := s.aliases, sigmas := s.sigmas, replyQueue := s.replyQueue, sentFinal := s.sentFinal) == s
    ensures PS.GetRank(s.processes, source) < 0 ==> r == Step(s, [], true)
    ensures PS.GetRank(s.processes, source) >= 0 ==>
      && r.s.aliases == s.aliases[PS.GetRank(s.processes, source) := Some(alias)]
      && r.s.sigmas == s.sigmas[PS.GetRank(s.processes, source) := Some(sig)]
    ensures s.sentFinal ==> r.out == [] && r.s.sentFinal
    ensures r.out != [] <==>
      && PS.GetRank(s.processes, source) >= 0 && ev.seqNo in s.replyQueue && !s.sentFinal
      && EB.HasQuorum(s.replyQueue[ev.seqNo] + [ev.text.value], EchoThreshold(s))
    ensures r.out != [] ==>
      r.s.sentFinal && r.out == [Send(EB.Multicast(PS.GetAllSockets(s.processes)), FinalBody(ev.seqNo, ev.text.value, CertificatePairs(r.s)))]
  {
    var rank := PS.GetRank(s.processes, source);
    if rank < 0 then Step(s, [], true)
    else
      var s1 := s.(aliases := s.aliases[rank := Some(alias)], sigmas := s.sigmas[rank := Some(sig)]);
      StorePairValid(s, rank, alias, sig);
      if ev.seqNo !in s.replyQueue then Step(s1, [], true)
      else
        var bucket := s.replyQueue[ev.seqNo] + [ev.text.value];
        var s2 := s1.(replyQueue := s.replyQueue[ev.seqNo := bucket]);
        var t := EchoThreshold(s);
        EB.FindQuorumComplete(bucket, t);
        if |bucket| > t && !s.sentFinal && EB.FindQuorum(bucket, t, 0).Some? then SendFinal(s2, ev)
        else Step(s2, [], false)
  }

  // ---------------------------------------------------------------- FINAL -> deliver

  /**
   * `verifySignature`: false for an alias missing from the trust store;
   * otherwise the signature is checked over the message with the alias pushed
   * on top, and the alias is popped again. An alias slot holding a signature
   * is not an alias of the store.
   */
  function VerifySignature(m: Message, alias: Item, sigma: Item, trusted: Crypto.TrustStore): (r: (bool, Message))
    ensures r.1 == m
    ensures r.0 <==> alias.IStr? && alias.s in trusted && Crypto.Verify(alias.s, m + [alias], sigma)
  {
    if alias.IStr? && alias.s in trusted then
      var pushed := m + [alias];
      (Crypto.Verify(alias.s, pushed, sigma), pushed[..|pushed| - 1])
    else (false, m)
  }

  /** The pair's signature is not BOTTOM and verifies for its alias over `echoMsg`. */
  predicate PairVerifies(trusted: Crypto.TrustStore, pair: (Item, Item), echoMsg: Message)
  {
    pair.1 != IStr(BOTTOM) && VerifySignature(echoMsg, pair.0, pair.1, trusted).0
  }

  /** Slot `i` of the popped pairs verifies over `echoMsg`. */
  predicate SlotVerifies(trusted: Crypto.TrustStore, popped: seq<(Item, Item)>, i: nat, echoMsg: Message)
  {
    i < |popped| && PairVerifies(trusted, popped[i], echoMsg)
  }

  /** The `verified` counter of `deliverFinal`. */
  function CountVerified(trusted: Crypto.TrustStore, popped: seq<(Item, Item)>, echoMsg: Message): (c: nat)
    ensures c <= |popped|
  {
    CountIdx(|popped|, (i: nat) => SlotVerifies(trusted, popped, i, echoMsg))
  }

  /** The top `2 * count` items are string values, as `popString` needs them. */
  predicate PairsOnTop(m: Message, count: nat)
  {
    StringsOnTop(m, 2 * count)
  }

  /** Every pair popped from a stack with string values on top holds two strings. */
  lemma PoppedStrings(m: Message, p: nat)
    requires PairsOnTop(m, p)
    ensures forall i :: 0 <= i < p ==> IsString(PopPairs(m, p)[i].0) && IsString(PopPairs(m, p)[i].1)
  {
    forall i | 0 <= i < p
      ensures IsString(PopPairs(m, p)[i].0) && IsString(PopPairs(m, p)[i].1)
    {
      assert |m| - 2 * p <= |m| - 2 - 2 * i;
    }
  }

  /** The slots after a FINAL: slot `i` holds the `i`-th popped pair, and nothing else changes. */
  function StorePairs(s: State, popped: seq<(Item, Item)>): (r: State)
    requires |popped| == PS.Size(s.processes)
    requires forall i :: 0 <= i < |popped| ==> IsString(popped[i].0) && IsString(popped[i].1)
    ensures Valid(r) && r.(aliases := s.aliases, sigmas := s.sigmas) == s
    ensures forall i :: 0 <= i < |popped| ==> r.aliases[i] == Some(popped[i].0) && r.sigmas[i] == Some(popped[i].1)
  {
    s.(aliases := seq(|popped|, i requires 0 <= i < |popped| => Some(popped[i].0)),
       sigmas := seq(|popped|, i requires 0 <= i < |popped| => Some(popped[i].1)))
  }

  /**
   * The slots after a FINAL whose stack runs out of string values after `k`
   * pops: the first `k / 2` pairs fill ranks 0 up, an odd last pop leaves its
   * signature at the next rank beside the alias already there, and nothing
   * else changes.
   */
  function StorePopped(s: State, m: Message, k: nat): (r: State)
    requires Valid(s) && k <= |m|
    requires forall j :: |m| - k <= j < |m| ==> IsString(m[j])
    ensures Valid(r) && r.(aliases := s.aliases, sigmas := s.sigmas) == s
    ensures forall i :: 0 <= i < PS.Size(s.processes) ==>
      && r.sigmas[i] == (if 2 * i + 1 <= k then Some(m[|m| - 1 - 2 * i]) else s.sigmas[i])
      && r.aliases[i] == (if 2 * i + 2 <= k then Some(m[|m| - 2 - 2 * i]) else s.aliases[i])
  {
    var p := PS.Size(s.processes);
    s.(aliases := seq(p, i requires 0 <= i < p => if 2 * i + 2 <= k then Some(m[|m| - 2 - 2 * i]) else s.aliases[i]),
       sigmas := seq(p, i requires 0 <= i < p => if 2 * i + 1 <= k then Some(m[|m| - 1 - 2 * i]) else s.sigmas[i]))
  }

  /** `deliverFinal` on a stack with too few string values: the pops that succeed fill their slots, then it raises. */
  function DeliverShort(s: State, m: Message): (r: Step)
    requires Valid(s) && StringRun(m, 2 * PS.Size(s.processes)) < 2 * PS.Size(s.processes)
    ensures Valid(r.s) && r.s.(aliases := s.aliases, sigmas := s.sigmas) == s && r.raised && r.out == []
    ensures var k := StringRun(m, 2 * PS.Size(s.processes));
      forall i :: 0 <= i < PS.Size(s.processes) ==>
        && r.s.sigmas[i] == (if 2 * i + 1 <= k then Some(m[|m| - 1 - 2 * i]) else s.sigmas[i])
        && r.s.aliases[i] == (if 2 * i + 2 <= k then Some(m[|m| - 2 - 2 * i]) else s.aliases[i])
  {
    Step(StorePopped(s, m, StringRun(m, 2 * PS.Size(s.processes))), [], true)
  }

  /**
   * `deliverFinal`: pops one pair per member into the slots (the topmost pair
   * into slot 0), counts the non-BOTTOM slots whose signature verifies for
   * their carried alias over the ECHO of this round and text, and delivers once
   * when that count exceeds ceil((N+F)/2). When the stack holds too few
   * string values, the `popString` that finds none raises, and the slots
   * filled before it keep their new values.
   */
  function DeliverFinal(s: State, source: Addr, ev: EchoEvent): (r: Step)
    requires Valid(s) && ev.text.Some?
    ensures Valid(r.s)
    ensures r.s.(aliases := s.aliases, sigmas := s.sigmas, delivered := s.delivered) == s
    ensures s.delivered ==> r.out == [] && r.s.delivered
    ensures r.raised <==> !PairsOnTop(ev.msg, PS.Size(s.processes))
    ensures r.raised ==>
      var p := PS.Size(s.processes);
      var k := StringRun(ev.msg, 2 * p);
      && r.out == [] && k < 2 * p
      && forall i :: 0 <= i < p ==>
        && r.s.sigmas[i] == (if 2 * i + 1 <= k then Some(ev.msg[|ev.msg| - 1 - 2 * i]) else s.sigmas[i])
        && r.s.aliases[i] == (if 2 * i + 2 <= k then Some(ev.msg[|ev.msg| - 2 - 2 * i]) else s.aliases[i])
    ensures PairsOnTop(ev.msg, PS.Size(s.processes)) ==>
      var p := PS.Size(s.processes);
      var rest := ev.msg[..|ev.msg| - 2 * p];
      var popped := PopPairs(ev.msg, p);
      && !r.raised
      && (forall i :: 0 <= i < p ==> r.s.aliases[i] == Some(popped[i].0) && r.s.sigmas[i] == Some(popped[i].1))
      && (r.out != [] <==> !s.delivered && CountVerified(s.trusted, popped, rest + EB.EchoBody(ev.seqNo, ev.text.value)) > DeliveryThreshold(s))
      && (r.out != [] ==> r.s.delivered && r.out == [Deliver(source, ev.(msg := rest))])
  {
    var p := PS.Size(s.processes);
    var m := ev.msg;
    StringRunFull(m, 2 * p);
    if !PairsOnTop(m, p) then DeliverShort(s, m)
    else
      var popped := PopPairs(m, p);
      var rest := m[..|m| - 2 * p];
      PoppedStrings(m, p);
      var s1 := StorePairs(s, popped);
      var echoMsg := rest + Header(ev.seqNo, true, false, ev.text.value);
      var verified := CountVerified(s.trusted, popped, echoMsg);
      if !s.delivered && verified > DeliveryThreshold(s) then
        Step(s1.(delivered := true), [Deliver(source, ev.(msg := rest))], false)
      else Step(s1, [], false)
  }

  // ---------------------------------------------------------------- dispatch and reset

  /** `pp2pdeliver`'s unpacking: the signature, then the alias, then the four values. */
  function Decode(m: Message): (r: Option<(Item, Item, EchoEvent)>)
    ensures r.Some? ==> IsString(r.value.0) && IsString(r.value.1) && r.value.2.text.Some?
    ensures r.Some? ==>
      var (alias, sig, ev) := r.value;
      m == ev.msg + Header(ev.seqNo, ev.isEcho, ev.isFinal, ev.text.value) + [alias, sig]
  {
    match PopStringItem(m)
    case None => None
    case Some((sig, m1)) =>
      match PopStringItem(m1)
      case None => None
      case Some((alias, m2)) =>
        match PopValues(Fresh().(msg := m2))
        case None => None
        case Some(ev) => Some((alias, sig, ev))
  }

  /** A message built from a header, an alias and a signature decodes back to them. */
  lemma DecodeBuilt(body: Message, seqNo: int, isEcho: bool, isFinal: bool, text: string, alias: Item, sig: Item)
    requires IsString(alias) && IsString(sig)
    ensures Decode(body + Header(seqNo, isEcho, isFinal, text) + [alias, sig])
         == Some((alias, sig, EchoEvent(isEcho, isFinal, seqNo, Some(text), body)))
  {
    var m := body + Header(seqNo, isEcho, isFinal, text) + [alias, sig];
    assert m[..|m| - 1][..|m| - 2] == body + Header(seqNo, isEcho, isFinal, text);
    var e := Fresh().(msg := body + Header(seqNo, isEcho, isFinal, text));
    assert PushValues(EchoEvent(isEcho, isFinal, seqNo, Some(text), body)) == Some(e.(isEcho := isEcho, isFinal := isFinal, seqNo := seqNo, text := Some(text)));
  }

  /** `pp2pdeliver`: an ECHO is collected, a FINAL verified, a SEND answered. */
  function Receive(s: State, source: Addr, m: Message): (r: Step)
    requires Valid(s)
    ensures Valid(r.s)
    ensures Decode(m).None? ==> r == Step(s, [], true)
    ensures r.s.n == s.n && r.s.sequenceNumber == s.sequenceNumber && r.s.processes == s.processes
    ensures s.sentFinal ==> r.s.sentFinal
    ensures s.delivered ==> r.s.delivered && forall o :: o in r.out ==> !o.Deliver?
  {
    match Decode(m)
    case None => Step(s, [], true)
    case Some((alias, sig, ev)) =>
      if ev.isEcho then CollectEchoReply(s, source, ev, alias, sig)
      else if ev.isFinal then DeliverFinal(s, source, ev)
      else SendEchoReply(s, source, ev)
  }

  /**
   * `reset`: clears the three flags and both slot arrays. The sequence number,
   * N, the buckets and the record of echoed SENDs are kept, so a SEND echoed
   * before the reset is not echoed again.
   */
  function Reset(s: State): (r: State)
    ensures Valid(r)
    ensures !r.sentEcho && !r.sentFinal && !r.delivered
    ensures forall i :: 0 <= i < |r.aliases| ==> r.aliases[i].None? && r.sigmas[i].None?
    ensures r.replyBuffer == s.replyBuffer && r.sequenceNumber == s.sequenceNumber && r.n == s.n
    ensures r.replyQueue == s.replyQueue && r.processes == s.processes && r.trusted == s.trusted
    ensures forall k :: AlreadyReplied(s, k) <==> AlreadyReplied(r, k)
  {
    var none := seq(PS.Size(s.processes), _ => None);
    s.(sentEcho := false, sentFinal := false, delivered := false, aliases := none, sigmas := none)
  }
}
