/**
 * Past-carrying causal order with garbage collection of the past. On top
 * of the "no-waiting" algorithm, every process acknowledges each message it
 * delivers to everyone; once as many acknowledgements of a message have
 * arrived as there are processes believed correct, the message leaves the
 * past list, so outgoing messages stop carrying it.
 */
module GCPastCO {
  import opened Common
  import PS = ProcessSet
  import opened Stack
  import opened PastList
  import NW = NoWaitingCO

  /** An `AckElement`: a message, by number and sender, and the addresses its acknowledgements came from, one per receipt. */
  datatype AckEntry = AckEntry(sn: int, source: Addr, procs: seq<Addr>)

  /**
   * `correct` is `None` before ProcessInit; `inited` is false until
   * ChannelInit creates the three lists.
   */
  datatype State = State(
    correct: Option<PS.ProcessSet>,
    seqNumber: int,
    inited: bool,
    delivered: seq<Elem>,
    past: seq<Elem>,
    acks: seq<AckEntry>)

  datatype Event =
    | ChannelInit
    | ProcessInit(ps: PS.ProcessSet)
    | Down(cls: string, m: Message)
    | Up(source: Addr, cls: string, m: Message)
    | Ack(from: Addr, m: Message)
    | Crash(p: int)
    | Other

  /**
   * `Pass`: the event goes on; `Send(m)`: down with the past on it;
   * `Deliver`/`DeliverPast`: as in the session without collection;
   * `SendAck(m)`: an acknowledgement, down to everyone.
   */
  datatype Out = Pass | Send(m: Message) | Deliver(source: Addr, m: Message) | DeliverPast(e: Elem) | SendAck(m: Message)

  datatype Step = Step(s: State, out: seq<Out>, raised: bool)

  function Init(): (s: State)
    ensures s.correct.None? && s.seqNumber == 0 && !s.inited
  {
    State(None, 0, false, [], [], [])
  }

  /** `getCorrectSize`: the processes whose flag is set; `None` when a slot is empty (the flag read raises). */
  function GetCorrectSize(ps: PS.ProcessSet): (r: Option<nat>)
    ensures r.Some? <==> PS.Full(ps)
    ensures r.Some? ==> r.value == PS.CorrectCount(ps) && r.value <= PS.Size(ps)
  {
    if PS.Full(ps) then Some(PS.CorrectCount(ps)) else None
  }

  /** The acknowledgement of a message: the sender's address, then the number on top. */
  function AckFrame(source: Addr, sn: int): Message
  {
    Push(Push([], AddrItem(source)), IntItem(sn))
  }

  /** The receiving side: the number, then the sender's address. */
  function ParseAck(m: Message): (r: Option<(int, Addr)>)
  {
    match PopInt(m)
    case None => None
    case Some((sn, m1)) =>
      match Pop(m1)
      case Some((AddrItem(a), _)) => Some((sn, a))
      case _ => None
  }

  lemma AckRoundTrip(source: Addr, sn: int)
    ensures ParseAck(AckFrame(source, sn)) == Some((sn, source))
  {
    PopIntPush(Push([], AddrItem(source)), sn);
    PopPush([], AddrItem(source));
  }

  /** The search loop over the acknowledgement list: the first index of an entry for the message, or -1. */
  function FindAck(acks: seq<AckEntry>, sn: int, source: Addr): (r: int)
    ensures -1 <= r < |acks|
    ensures r >= 0 ==> acks[r].sn == sn && acks[r].source == source
    ensures forall i :: 0 <= i < |acks| && (r == -1 || i < r) ==> !(acks[i].sn == sn && acks[i].source == source)
    decreases |acks|
  {
    if acks == [] then -1
    else if acks[0].sn == sn && acks[0].source == source then 0
    else
      var r := FindAck(acks[1..], sn, source);
      assert forall i :: 1 <= i < |acks| ==> acks[i] == acks[1..][i - 1];
      if r == -1 then -1 else r + 1
  }

  /** The entry for a message and its index: the existing one, or a new empty one at the end. */
  function FindOrCreate(acks: seq<AckEntry>, sn: int, source: Addr): (r: (seq<AckEntry>, nat))
    ensures r.1 < |r.0| && r.0[r.1].sn == sn && r.0[r.1].source == source
    ensures FindAck(acks, sn, source) >= 0 ==> r == (acks, FindAck(acks, sn, source))
    ensures FindAck(acks, sn, source) == -1 ==> r == (acks + [AckEntry(sn, source, [])], |acks|)
  {
    var i := FindAck(acks, sn, source);
    if i >= 0 then (acks, i) else (acks + [AckEntry(sn, source, [])], |acks|)
  }

  /** `regAck`: the address joins the entry's list, whether or not it is already there. */
  function RegAck(acks: seq<AckEntry>, i: nat, p: Addr): (r: seq<AckEntry>)
    requires i < |acks|
    ensures |r| == |acks| && r[i].procs == acks[i].procs + [p]
    ensures r[i].sn == acks[i].sn && r[i].source == acks[i].source
    ensures forall j :: 0 <= j < |acks| && j != i ==> r[j] == acks[j]
  {
    acks[i := acks[i].(procs := acks[i].procs + [p])]
  }

  /**
   * `sendAck`: the entry found or created, the local acknowledgement
   * registered, the acknowledgement sent. An unknown local process raises
   * after the entry is created.
   */
  function SendAckFor(acks: seq<AckEntry>, e: Elem, me: Option<Addr>): (r: (seq<AckEntry>, seq<Out>, bool))
    ensures r.2 <==> me.None?
    ensures me.None? ==> r.1 == []
    ensures me.Some? ==> r.1 == [SendAck(AckFrame(e.source, e.sn))]
    ensures |acks| <= |r.0| <= |acks| + 1
  {
    var (a, i) := FindOrCreate(acks, e.sn, e.source);
    if me.None? then (a, [], true)
    else (RegAck(a, i, me.value), [SendAck(AckFrame(e.source, e.sn))], false)
  }

  /**
   * After `sendAck` the search for the message finds its entry, with the
   * local acknowledgement registered last when the local process is known;
   * the entries for other messages are untouched.
   */
  lemma SendAckForRegisters(acks: seq<AckEntry>, e: Elem, me: Option<Addr>)
    ensures var a := SendAckFor(acks, e, me).0;
      var j := FindAck(a, e.sn, e.source);
      && j >= 0
      && (me.Some? ==> |a[j].procs| > 0 && a[j].procs[|a[j].procs| - 1] == me.value)
      && (forall k :: 0 <= k < |acks| && (acks[k].sn, acks[k].source) != (e.sn, e.source) ==> a[k] == acks[k])
      && (me.Some? ==> ParseAck(SendAckFor(acks, e, me).1[0].m) == Some((e.sn, e.source)))
  {
    AckRoundTrip(e.source, e.sn);
    if me.Some? {
      FindOrCreateFinds(acks, e.sn, e.source, me.value);
    }
  }

  /** Every message delivered from a carried past, each followed by its acknowledgement. */
  function AckAll(acks: seq<AckEntry>, news: seq<Elem>, me: Addr): (r: (seq<AckEntry>, seq<Out>))
    ensures |r.1| == 2 * |news|
    ensures forall i :: 0 <= i < |r.1| ==> r.1[i].DeliverPast? || r.1[i].SendAck?
    ensures |acks| <= |r.0|
    decreases |news|
  {
    if news == [] then (acks, [])
    else
      var first := SendAckFor(acks, news[0], Some(me));
      var rest := AckAll(first.0, news[1..], me);
      (rest.0, [DeliverPast(news[0])] + first.1 + rest.1)
  }

  /** The `i`-th message delivered from a carried past is output at `2 * i`, and its acknowledgement right after it. */
  lemma {:induction false} AckAllAt(acks: seq<AckEntry>, news: seq<Elem>, me: Addr, i: nat)
    requires i < |news|
    ensures var o := AckAll(acks, news, me).1;
      o[2 * i] == DeliverPast(news[i]) && o[2 * i + 1] == SendAck(AckFrame(news[i].source, news[i].sn))
    decreases i
  {
    var first := SendAckFor(acks, news[0], Some(me));
    var o2 := AckAll(first.0, news[1..], me).1;
    assert AckAll(acks, news, me).1 == [DeliverPast(news[0])] + first.1 + o2;
    if i > 0 {
      AckAllAt(first.0, news[1..], me, i - 1);
      assert news[1..][i - 1] == news[i];
    }
  }

  /** Each message delivered from a carried past is followed at once by its acknowledgement, in list order. */
  lemma AckAllPairs(acks: seq<AckEntry>, news: seq<Elem>, me: Addr)
    ensures var o := AckAll(acks, news, me).1;
      forall i :: 0 <= i < |news| ==>
        o[2 * i] == DeliverPast(news[i]) && o[2 * i + 1] == SendAck(AckFrame(news[i].source, news[i].sn))
  {
    forall i | 0 <= i < |news|
      ensures AckAll(acks, news, me).1[2 * i] == DeliverPast(news[i])
      ensures AckAll(acks, news, me).1[2 * i + 1] == SendAck(AckFrame(news[i].source, news[i].sn))
    {
      AckAllAt(acks, news, me, i);
    }
  }

  /** `handleSendableEventDOWN`: as without collection. */
  function OnDown(s: State, cls: string, m: Message, ser: Message -> Payload): (r: Step)
    ensures r.raised <==> !s.inited || NW.SelfAddr(s.correct).None?
    ensures !s.inited ==> r == Step(s, [], true)
    ensures s.inited ==> |r.out| == 1 && r.out[0].Send? && NW.CarriesPast(r.out[0].m, m, s.past, s.seqNumber)
    ensures r.s.delivered == s.delivered && r.s.acks == s.acks && r.s.correct == s.correct
    ensures !r.raised ==>
      r.s.past == s.past + [Elem(NW.SelfAddr(s.correct).value, s.seqNumber, cls, ser(m))] && r.s.seqNumber == s.seqNumber + 1
  {
    if !s.inited then Step(s, [], true)
    else
      EncodeRoundTrip(m, s.past, s.seqNumber);
      var out := [Send(Encode(m, s.past, s.seqNumber))];
      match NW.SelfAddr(s.correct)
      case None => Step(s, out, true)
      case Some(me) =>
        Step(s.(past := s.past + [Elem(me, s.seqNumber, cls, ser(m))], seqNumber := s.seqNumber + 1), out, false)
  }

  /**
   * `handleSendableEventUP`: as without collection, with an acknowledgement
   * sent after each delivery. The catch-up is the one of the session
   * without collection; with an unknown local process the first
   * acknowledgement raises, so the catch-up stops after its first delivery.
   */
  function OnUp(s: State, source: Addr, cls: string, m: Message, ser: Message -> Payload, skipOwnPast: bool): (r: Step)
    ensures PopInt(m).None? || !s.inited ==> r == Step(s, [], true)
    ensures PopInt(m).Some? && s.inited && IsDelivered(s.delivered, source, PopInt(m).value.0) ==> r == Step(s, [], false)
    ensures r.s.seqNumber == s.seqNumber && r.s.correct == s.correct && r.s.inited == s.inited
    ensures s.delivered <= r.s.delivered
    ensures forall i :: 0 <= i < |r.out| ==> !r.out[i].Send? && !r.out[i].Pass?
  {
    match PopInt(m)
    case None => Step(s, [], true)
    case Some((sq, m1)) =>
      if !s.inited then Step(s, [], true)
      else if IsDelivered(s.delivered, source, sq) then Step(s, [], false)
      else
        match PopInt(m1)
        case None => Step(s, [], true)
        case Some((count, m2)) =>
          ArriveExtendsDelivered(s, source, cls, sq, DecodeEntries(m2, count), ser, skipOwnPast);
          Arrive(s, source, cls, sq, DecodeEntries(m2, count), ser, skipOwnPast)
  }

  /** A fresh message with its carried past decoded: the catch-up, the message, and their acknowledgements. */
  function Arrive(s: State, source: Addr, cls: string, sq: int, d: Decoded, ser: Message -> Payload, skipOwnPast: bool): (r: Step)
    ensures r.raised <==> NW.SelfAddr(s.correct).None? || !d.ok
    ensures r.s.seqNumber == s.seqNumber && r.s.correct == s.correct && r.s.inited == s.inited
    ensures NW.SelfAddr(s.correct).None? ==> |r.out| <= 1
    ensures NW.SelfAddr(s.correct).Some? && d.ok ==>
      && |r.out| >= 2
      && r.out[|r.out| - 2] == Deliver(source, d.rest)
      && r.out[|r.out| - 1] == SendAck(AckFrame(source, sq))
  {
    var skip := if skipOwnPast then NW.SelfAddr(s.correct) else None;
    var c := NW.CatchUp(s.delivered, s.past, d.entries, skip);
    match NW.SelfAddr(s.correct)
    case None => ArriveUnknown(s, source, cls, sq, d, ser, NW.PastDelivered(c.out))
    case Some(me) => ArriveKnown(s, source, cls, sq, d, ser, c, me)
  }

  /**
   * The arrival with the local process unknown: the first news message, or
   * else the message itself, is delivered and `sendAck` then raises.
   */
  function ArriveUnknown(s: State, source: Addr, cls: string, sq: int, d: Decoded, ser: Message -> Payload, news: seq<Elem>): Step
  {
    if news != [] then
      var e1 := news[0];
      Step(s.(delivered := s.delivered + [e1], past := s.past + [e1], acks := SendAckFor(s.acks, e1, None).0), [DeliverPast(e1)], true)
    else if !d.ok then Step(s, [], true)
    else Step(s.(delivered := s.delivered + [Elem(source, sq, cls, ser(d.rest))]), [Deliver(source, d.rest)], true)
  }

  /** The arrival with the local process known, after the catch-up `c`. */
  function ArriveKnown(s: State, source: Addr, cls: string, sq: int, d: Decoded, ser: Message -> Payload, c: NW.Catchup, me: Addr): Step
  {
    var acked := AckAll(s.acks, NW.PastDelivered(c.out), me);
    var s1 := s.(delivered := c.delivered, past := c.past, acks := acked.0);
    if !d.ok then Step(s1, acked.1, true)
    else
      var le := Elem(source, sq, cls, ser(d.rest));
      var own := SendAckFor(acked.0, le, Some(me));
      var past := if source != me then c.past + [le] else c.past;
      Step(s1.(delivered := c.delivered + [le], past := past, acks := own.0), acked.1 + [Deliver(source, d.rest)] + own.1, false)
  }

  /** An arrival only appends to the delivered list, and only delivers and acknowledges. */
  lemma ArriveExtendsDelivered(s: State, source: Addr, cls: string, sq: int, d: Decoded, ser: Message -> Payload, skipOwnPast: bool)
    ensures var r := Arrive(s, source, cls, sq, d, ser, skipOwnPast);
      && s.delivered <= r.s.delivered
      && forall i :: 0 <= i < |r.out| ==> r.out[i].Deliver? || r.out[i].DeliverPast? || r.out[i].SendAck?
  {
    var r := Arrive(s, source, cls, sq, d, ser, skipOwnPast);
    match NW.SelfAddr(s.correct)
    case None =>
      var c := NW.CatchUp(s.delivered, s.past, d.entries, None);
      assert r == ArriveUnknown(s, source, cls, sq, d, ser, NW.PastDelivered(c.out));
    case Some(me) =>
      var c := NW.CatchUp(s.delivered, s.past, d.entries, if skipOwnPast then Some(me) else None);
      var o1 := AckAll(s.acks, NW.PastDelivered(c.out), me).1;
      if d.ok {
        ArriveAccepted(s, source, cls, sq, d, ser, skipOwnPast);
        var le := Elem(source, sq, cls, ser(d.rest));
        assert (c.delivered + [le])[..|s.delivered|] == c.delivered[..|s.delivered|];
        assert r.out == o1 + [Deliver(source, d.rest), SendAck(AckFrame(source, sq))];
      } else {
        ArriveRejected(s, source, cls, sq, d, ser, skipOwnPast);
      }
  }

  /** The search of the past for a message: the first index of an element of that sender and number, or -1. */
  function FindElem(past: seq<Elem>, source: Addr, sn: int): (r: int)
    ensures -1 <= r < |past|
    ensures r >= 0 ==> past[r].source == source && past[r].sn == sn
    ensures forall i :: 0 <= i < |past| && (r == -1 || i < r) ==> !(past[i].source == source && past[i].sn == sn)
    decreases |past|
  {
    if past == [] then -1
    else if past[0].source == source && past[0].sn == sn then 0
    else
      var r := FindElem(past[1..], source, sn);
      assert forall i :: 1 <= i < |past| ==> past[i] == past[1..][i - 1];
      if r == -1 then -1 else r + 1
  }

  /** The past without the first element of that sender and number. */
  function RemoveFirst(past: seq<Elem>, source: Addr, sn: int): (r: seq<Elem>)
    ensures FindElem(past, source, sn) == -1 ==> r == past
    ensures FindElem(past, source, sn) >= 0 ==> |r| == |past| - 1
    ensures var k := FindElem(past, source, sn);
      forall i :: 0 <= i < |r| ==> r[i] == past[if k == -1 || i < k then i else i + 1]
  {
    var k := FindElem(past, source, sn);
    if k == -1 then past else past[..k] + past[k + 1..]
  }

  /**
   * `handleAck`: the local process's own acknowledgements were registered
   * when sent and are ignored. Another is registered on the entry for its
   * message (created if missing); when the entry counts as many
   * acknowledgements as there are correct processes, the message leaves
   * the past and the entry the list.
   */
  function OnAck(s: State, from: Addr, m: Message): (r: Step)
    ensures r.out == []
    ensures r.s.delivered == s.delivered && r.s.seqNumber == s.seqNumber && r.s.inited == s.inited && r.s.correct == s.correct
    ensures r.raised <==> (NW.SelfAddr(s.correct).None? ||
                           (from != NW.SelfAddr(s.correct).value && (ParseAck(m).None? || !s.inited || !PS.Full(s.correct.value))))
    ensures NW.SelfAddr(s.correct) == Some(from) ==> r.s == s
    ensures r.s.past == s.past || (ParseAck(m).Some? && r.s.past == RemoveFirst(s.past, ParseAck(m).value.1, ParseAck(m).value.0))
  {
    match NW.SelfAddr(s.correct)
    case None => Step(s, [], true)
    case Some(me) =>
      if from == me then Step(s, [], false)
      else
        match ParseAck(m)
        case None => Step(s, [], true)
        case Some((sn, src)) =>
          if !s.inited then Step(s, [], true)
          else
            var (a, i) := FindOrCreate(s.acks, sn, src);
            var a1 := RegAck(a, i, from);
            match GetCorrectSize(s.correct.value)
            case None => Step(s.(acks := a1), [], true)
            case Some(n) =>
              if n == |a1[i].procs| then
                Step(s.(acks := a1[..i] + a1[i + 1..], past := RemoveFirst(s.past, src, sn)), [], false)
              else Step(s.(acks := a1), [], false)
  }

  /**
   * `handle`, with or without the correction: the sequence number never goes
   * back; only a send goes down, carrying the past; only an arrival
   * delivers or acknowledges; an acknowledgement outputs nothing; a crash
   * leaves the past and the acknowledgements alone; and the delivered list
   * only grows, short of a ChannelInit.
   */
  function HandleWith(s: State, e: Event, ser: Message -> Payload, skipOwnPast: bool): (r: Step)
    ensures s.seqNumber <= r.s.seqNumber
    ensures forall i :: 0 <= i < |r.out| && r.out[i].Send? ==> e.Down? && NW.CarriesPast(r.out[i].m, e.m, s.past, s.seqNumber)
    ensures forall i :: 0 <= i < |r.out| && (r.out[i].Deliver? || r.out[i].DeliverPast? || r.out[i].SendAck?) ==> e.Up?
    ensures e.Ack? ==> r.out == []
    ensures e.Crash? ==> r.s.past == s.past && r.s.acks == s.acks
    ensures !e.ChannelInit? ==> s.delivered <= r.s.delivered
  {
    match e
    case ChannelInit => Step(s.(inited := true, delivered := [], past := [], acks := []), [Pass], false)
    case ProcessInit(ps) => Step(s.(correct := Some(ps)), [Pass], false)
    case Down(cls, m) => OnDown(s, cls, m, ser)
    case Up(source, cls, m) => OnUp(s, source, cls, m, ser, skipOwnPast)
    case Ack(from, m) => OnAck(s, from, m)
    case Crash(p) =>
      if s.correct.None? || PS.MarkCrashed(s.correct.value, p).None? then Step(s, [], true)
      else Step(s.(correct := PS.MarkCrashed(s.correct.value, p)), [Pass], false)
    case Other => Step(s, [Pass], false)
  }

  /** The session as written: the catch-up adds the local process's own messages to the past again. */
  function HandleAsWritten(s: State, e: Event, ser: Message -> Payload): (r: Step)
    ensures s.seqNumber <= r.s.seqNumber
    ensures forall i :: 0 <= i < |r.out| && r.out[i].Send? ==> e.Down? && NW.CarriesPast(r.out[i].m, e.m, s.past, s.seqNumber)
    ensures !e.ChannelInit? ==> s.delivered <= r.s.delivered
  {
    HandleWith(s, e, ser, false)
  }

  /** The session with the local process's own messages kept out of the past on catch-up. */
  function Handle(s: State, e: Event, ser: Message -> Payload): (r: Step)
    ensures s.seqNumber <= r.s.seqNumber
    ensures forall i :: 0 <= i < |r.out| && r.out[i].Send? ==> e.Down? && NW.CarriesPast(r.out[i].m, e.m, s.past, s.seqNumber)
    ensures !e.ChannelInit? ==> s.delivered <= r.s.delivered
  {
    HandleWith(s, e, ser, true)
  }

  /** The entries are for different messages. */
  predicate AcksDistinct(acks: seq<AckEntry>)
  {
    forall i, j :: 0 <= i < j < |acks| ==> (acks[i].sn, acks[i].source) != (acks[j].sn, acks[j].source)
  }

  /** Finding or creating an entry and registering an acknowledgement keeps one entry per message. */
  lemma RegisterKeepsDistinct(acks: seq<AckEntry>, sn: int, source: Addr, p: Addr)
    requires AcksDistinct(acks)
    ensures var (a, i) := FindOrCreate(acks, sn, source);
      AcksDistinct(a) && AcksDistinct(RegAck(a, i, p))
  {
  }

  /** Removing an entry keeps one entry per message. */
  lemma RemoveKeepsDistinct(acks: seq<AckEntry>, i: nat)
    requires AcksDistinct(acks) && i < |acks|
    ensures AcksDistinct(acks[..i] + acks[i + 1..])
  {
    var r := acks[..i] + acks[i + 1..];
    forall k | 0 <= k < |r|
      ensures r[k] == acks[if k < i then k else k + 1]
    {
    }
  }

  /** Acknowledging a list of news deliveries keeps one entry per message. */
  lemma {:induction false} AckAllKeepsDistinct(acks: seq<AckEntry>, news: seq<Elem>, me: Addr)
    requires AcksDistinct(acks)
    ensures AcksDistinct(AckAll(acks, news, me).0)
    decreases |news|
  {
    if news != [] {
      RegisterKeepsDistinct(acks, news[0].sn, news[0].source, me);
      var (a, o, _) := SendAckFor(acks, news[0], Some(me));
      AckAllKeepsDistinct(a, news[1..], me);
    }
  }

  /**
   * The acknowledgement list holds at most one entry per message, whatever
   * the event: a new entry is created only when the search finds none.
   */
  lemma OneEntryPerMessage(s: State, e: Event, ser: Message -> Payload)
    requires AcksDistinct(s.acks)
    ensures AcksDistinct(Handle(s, e, ser).s.acks)
  {
    match e
    case Up(source, cls, m) =>
      if PopInt(m).Some? && s.inited && !IsDelivered(s.delivered, source, PopInt(m).value.0) && PopInt(PopInt(m).value.1).Some? {
        var sq := PopInt(m).value.0;
        var (count, m2) := PopInt(PopInt(m).value.1).value;
        UpSteps(s, source, cls, m, ser, true);
        ArriveKeepsDistinct(s, source, cls, sq, DecodeEntries(m2, count), ser);
      }
    case Ack(from, m) =>
      AckKeepsDistinct(s, from, m);
    case _ =>
  }

  lemma ArriveKeepsDistinct(s: State, source: Addr, cls: string, sq: int, d: Decoded, ser: Message -> Payload)
    requires AcksDistinct(s.acks)
    ensures AcksDistinct(Arrive(s, source, cls, sq, d, ser, true).s.acks)
  {
    var c := NW.CatchUp(s.delivered, s.past, d.entries, NW.SelfAddr(s.correct));
    var news := NW.PastDelivered(c.out);
    match NW.SelfAddr(s.correct)
    case None =>
      if news != [] {
        RegisterKeepsDistinct(s.acks, news[0].sn, news[0].source, 0);
      }
    case Some(me) =>
      AckAllKeepsDistinct(s.acks, news, me);
      var a1 := AckAll(s.acks, news, me).0;
      RegisterKeepsDistinct(a1, sq, source, me);
  }

  lemma AckKeepsDistinct(s: State, from: Addr, m: Message)
    requires AcksDistinct(s.acks)
    ensures AcksDistinct(OnAck(s, from, m).s.acks)
  {
    if ParseAck(m).Some? {
      var (sn, src) := ParseAck(m).value;
      RegisterKeepsDistinct(s.acks, sn, src, from);
      var (a, i) := FindOrCreate(s.acks, sn, src);
      RemoveKeepsDistinct(RegAck(a, i, from), i);
    }
  }

  /**
   * Acknowledgements count receipts: every acknowledgement from another
   * process adds one address to its message's entry, even one from a
   * process already listed; the local process's own are ignored on
   * arrival.
   */
  lemma AckCountsReceipts(s: State, from: Addr, source: Addr, sn: int)
    requires s.inited && NW.SelfAddr(s.correct).Some? && PS.Full(s.correct.value)
    ensures var r := OnAck(s, from, AckFrame(source, sn));
      var (a, i) := FindOrCreate(s.acks, sn, source);
      && !r.raised && r.out == []
      && (from == NW.SelfAddr(s.correct).value ==> r.s == s)
      && (from != NW.SelfAddr(s.correct).value && |a[i].procs| + 1 != PS.CorrectCount(s.correct.value) ==>
            r.s == s.(acks := RegAck(a, i, from)))
      && (from != NW.SelfAddr(s.correct).value && |a[i].procs| + 1 == PS.CorrectCount(s.correct.value) ==>
            r.s == s.(acks := a[..i] + a[i + 1..], past := RemoveFirst(s.past, source, sn)))
  {
    AckRoundTrip(source, sn);
  }

  /**
   * The local process acknowledges what it delivers and registers its own
   * acknowledgement at once: after a news message arrives, its entry lists
   * the local address last, and the acknowledgement goes out last.
   */
  lemma OwnAckRegistered(s: State, source: Addr, cls: string, m: Message, past: seq<Elem>, sq: int, ser: Message -> Payload)
    requires s.inited && NW.SelfAddr(s.correct).Some? && !IsDelivered(s.delivered, source, sq)
    ensures var r := Handle(s, Up(source, cls, Encode(m, past, sq)), ser);
      var me := NW.SelfAddr(s.correct).value;
      var i := FindAck(r.s.acks, sq, source);
      && !r.raised && i >= 0 && |r.s.acks[i].procs| > 0 && r.s.acks[i].procs[|r.s.acks[i].procs| - 1] == me
      && r.out[|r.out| - 1] == SendAck(AckFrame(source, sq))
      && ParseAck(AckFrame(source, sq)) == Some((sq, source))
  {
    EncodeRoundTrip(m, past, sq);
    AckRoundTrip(source, sq);
    var msg := Encode(m, past, sq);
    var d := Decoded(past, m, true);
    UpSteps(s, source, cls, msg, ser, true);
    assert Handle(s, Up(source, cls, msg), ser) == Arrive(s, source, cls, sq, d, ser, true);
    ArriveRegistersOwnAck(s, source, cls, sq, d, ser, true);
  }

  /** A fresh arrival that decodes registers the local acknowledgement last in the message's entry and sends it last. */
  lemma ArriveRegistersOwnAck(s: State, source: Addr, cls: string, sq: int, d: Decoded, ser: Message -> Payload, skipOwnPast: bool)
    requires NW.SelfAddr(s.correct).Some? && d.ok
    ensures var r := Arrive(s, source, cls, sq, d, ser, skipOwnPast);
      var me := NW.SelfAddr(s.correct).value;
      var i := FindAck(r.s.acks, sq, source);
      && !r.raised && i >= 0 && |r.s.acks[i].procs| > 0 && r.s.acks[i].procs[|r.s.acks[i].procs| - 1] == me
      && r.out[|r.out| - 1] == SendAck(AckFrame(source, sq))
  {
    ArriveAccepted(s, source, cls, sq, d, ser, skipOwnPast);
    var me := NW.SelfAddr(s.correct).value;
    var c := NW.CatchUp(s.delivered, s.past, d.entries, if skipOwnPast then Some(me) else None);
    var acked := AckAll(s.acks, NW.PastDelivered(c.out), me);
    FindOrCreateFinds(acked.0, sq, source, me);
  }

  /** After an acknowledgement is registered, the search for its message finds the entry it went to. */
  lemma FindOrCreateFinds(acks: seq<AckEntry>, sn: int, source: Addr, p: Addr)
    ensures var (a, j) := FindOrCreate(acks, sn, source);
      FindAck(RegAck(a, j, p), sn, source) == j
  {
    var (a, j) := FindOrCreate(acks, sn, source);
    var r := RegAck(a, j, p);
    var k := FindAck(r, sn, source);
    assert forall i :: 0 <= i < |r| ==> r[i].sn == a[i].sn && r[i].source == a[i].source;
    assert k <= j;
    if FindAck(acks, sn, source) == -1 {
      assert forall i :: 0 <= i < |acks| ==> a[i] == acks[i];
    }
  }

  /**
   * A fresh message whose header pops, with the local process known: the
   * catch-up of the session without collection, its acknowledgements, then
   * the message and its own acknowledgement.
   */
  lemma UpSteps(s: State, source: Addr, cls: string, m: Message, ser: Message -> Payload, skipOwnPast: bool)
    requires s.inited && PopInt(m).Some? && PopInt(PopInt(m).value.1).Some?
    requires !IsDelivered(s.delivered, source, PopInt(m).value.0)
    ensures var sq := PopInt(m).value.0;
      var (count, m2) := PopInt(PopInt(m).value.1).value;
      var d := DecodeEntries(m2, count);
      HandleWith(s, Up(source, cls, m), ser, skipOwnPast) == Arrive(s, source, cls, sq, d, ser, skipOwnPast)
  {
    var (sq, m1) := PopInt(m).value;
    var (count, m2) := PopInt(m1).value;
    assert OnUp(s, source, cls, m, ser, skipOwnPast) == Arrive(s, source, cls, sq, DecodeEntries(m2, count), ser, skipOwnPast);
  }

  /**
   * A fresh message whose carried past decodes, with the local process known:
   * the catch-up's news with their acknowledgements, then the message, which
   * joins the past unless the local process sent it, and its acknowledgement.
   */
  lemma ArriveAccepted(s: State, source: Addr, cls: string, sq: int, d: Decoded, ser: Message -> Payload, skipOwnPast: bool)
    requires NW.SelfAddr(s.correct).Some? && d.ok
    ensures var me := NW.SelfAddr(s.correct).value;
      var c := NW.CatchUp(s.delivered, s.past, d.entries, if skipOwnPast then Some(me) else None);
      var a1 := AckAll(s.acks, NW.PastDelivered(c.out), me).0;
      var o1 := AckAll(s.acks, NW.PastDelivered(c.out), me).1;
      var a := FindOrCreate(a1, sq, source).0;
      var j := FindOrCreate(a1, sq, source).1;
      var r := Arrive(s, source, cls, sq, d, ser, skipOwnPast);
      && !r.raised
      && r.s.seqNumber == s.seqNumber && r.s.correct == s.correct && r.s.inited == s.inited
      && r.s.delivered == c.delivered + [Elem(source, sq, cls, ser(d.rest))]
      && r.s.past == (if source != me then c.past + [Elem(source, sq, cls, ser(d.rest))] else c.past)
      && r.s.acks == RegAck(a, j, me)
      && r.out == o1 + [Deliver(source, d.rest), SendAck(AckFrame(source, sq))]
  {
    var me := NW.SelfAddr(s.correct).value;
    var c := NW.CatchUp(s.delivered, s.past, d.entries, if skipOwnPast then Some(me) else None);
    var acked := AckAll(s.acks, NW.PastDelivered(c.out), me);
    var le := Elem(source, sq, cls, ser(d.rest));
    var found := FindOrCreate(acked.0, sq, source);
    var own := SendAckFor(acked.0, le, Some(me));
    var s1 := s.(delivered := c.delivered, past := c.past, acks := acked.0);
    assert own.0 == RegAck(found.0, found.1, me);
    assert own.1 == [SendAck(AckFrame(source, sq))];
    var past := if source != me then c.past + [le] else c.past;
    var k := ArriveKnown(s, source, cls, sq, d, ser, c, me);
    assert k == Step(s1.(delivered := c.delivered + [le], past := past, acks := own.0), acked.1 + [Deliver(source, d.rest)] + own.1, false);
    assert k.out == acked.1 + [Deliver(source, d.rest), SendAck(AckFrame(source, sq))];
    assert Arrive(s, source, cls, sq, d, ser, skipOwnPast) == k;
  }

  /**
   * A fresh message whose carried past does not decode, with the local
   * process known: the catch-up's news are delivered and acknowledged, the
   * message itself is not, and the handler raises.
   */
  lemma ArriveRejected(s: State, source: Addr, cls: string, sq: int, d: Decoded, ser: Message -> Payload, skipOwnPast: bool)
    requires NW.SelfAddr(s.correct).Some? && !d.ok
    ensures var me := NW.SelfAddr(s.correct).value;
      var c := NW.CatchUp(s.delivered, s.past, d.entries, if skipOwnPast then Some(me) else None);
      var acked := AckAll(s.acks, NW.PastDelivered(c.out), me);
      var r := Arrive(s, source, cls, sq, d, ser, skipOwnPast);
      && r.raised
      && r.s.seqNumber == s.seqNumber && r.s.correct == s.correct && r.s.inited == s.inited
      && r.s.delivered == c.delivered && r.s.past == c.past && r.s.acks == acked.0 && r.out == acked.1
  {
    var me := NW.SelfAddr(s.correct).value;
    var c := NW.CatchUp(s.delivered, s.past, d.entries, if skipOwnPast then Some(me) else None);
    var acked := AckAll(s.acks, NW.PastDelivered(c.out), me);
    assert Arrive(s, source, cls, sq, d, ser, skipOwnPast) == ArriveKnown(s, source, cls, sq, d, ser, c, me);
  }

  /** The arrival of a fresh message with the local process known, whether or not its carried past decodes. */
  lemma ArriveSteps(s: State, source: Addr, cls: string, sq: int, d: Decoded, ser: Message -> Payload, skipOwnPast: bool)
    requires NW.SelfAddr(s.correct).Some?
    ensures var me := NW.SelfAddr(s.correct).value;
      var c := NW.CatchUp(s.delivered, s.past, d.entries, if skipOwnPast then Some(me) else None);
      var a1 := AckAll(s.acks, NW.PastDelivered(c.out), me).0;
      var o1 := AckAll(s.acks, NW.PastDelivered(c.out), me).1;
      var a := FindOrCreate(a1, sq, source).0;
      var j := FindOrCreate(a1, sq, source).1;
      var r := Arrive(s, source, cls, sq, d, ser, skipOwnPast);
      && r.raised == !d.ok
      && r.s.seqNumber == s.seqNumber && r.s.correct == s.correct && r.s.inited == s.inited
      && (!d.ok ==> r.s.delivered == c.delivered && r.s.past == c.past && r.s.acks == a1 && r.out == o1)
      && (d.ok ==>
            && r.s.delivered == c.delivered + [Elem(source, sq, cls, ser(d.rest))]
            && r.s.past == (if source != me then c.past + [Elem(source, sq, cls, ser(d.rest))] else c.past)
            && r.s.acks == RegAck(a, j, me)
            && r.out == o1 + [Deliver(source, d.rest), SendAck(AckFrame(source, sq))])
  {
    if d.ok {
      ArriveAccepted(s, source, cls, sq, d, ser, skipOwnPast);
    } else {
      ArriveRejected(s, source, cls, sq, d, ser, skipOwnPast);
    }
  }

  /** When entries are for different messages, the search finds the entry for its message wherever it is. */
  lemma AcksFirstMatch(acks: seq<AckEntry>, j: nat, sn: int, source: Addr)
    requires j < |acks| && acks[j].sn == sn && acks[j].source == source
    ensures 0 <= FindAck(acks, sn, source) <= j
  {
  }

  /** `getCorrectSize` is the number of processes whose flag is set. */
  lemma CorrectSizeCounts(ps: PS.ProcessSet)
    requires PS.Full(ps)
    ensures GetCorrectSize(ps) == Some(PS.CorrectCount(ps))
    ensures GetCorrectSize(ps).value == PS.Size(ps) <==> forall i :: 0 <= i < PS.Size(ps) ==> PS.IsCorrect(ps, i)
  {
    PS.CorrectCountFull(ps);
  }

  /** Collection removes one copy of the message from the past; a past without repeats then no longer holds it. */
  lemma RemoveFirstClears(past: seq<Elem>, source: Addr, sn: int)
    requires KeysDistinct(past)
    ensures !IsDelivered(RemoveFirst(past, source, sn), source, sn)
    ensures KeysDistinct(RemoveFirst(past, source, sn))
  {
    var r := RemoveFirst(past, source, sn);
    var k := FindElem(past, source, sn);
    forall i | 0 <= i < |r|
      ensures (r[i].source, r[i].sn) != (source, sn)
    {
      assert r[i] == past[if k == -1 || i < k then i else i + 1];
    }
    forall i, j | 0 <= i < j < |r|
      ensures (r[i].source, r[i].sn) != (r[j].source, r[j].sn)
    {
      assert r[i] == past[if k == -1 || i < k then i else i + 1];
      assert r[j] == past[if k == -1 || j < k then j else j + 1];
    }
  }

  /**
   * The past invariant of the session without collection: no repeats,
   * other processes' messages delivered, own numbers already used.
   */
  predicate PastInv(s: State, me: Addr)
  {
    NW.PastInv(NW.State(None, s.seqNumber, true, s.delivered, s.past), me)
  }

  /** Removing the first copy of a message keeps the past invariant. */
  lemma RemoveKeepsInv(s: State, me: Addr, source: Addr, sn: int)
    requires PastInv(s, me)
    ensures PastInv(s.(past := RemoveFirst(s.past, source, sn)), me)
  {
    RemoveFirstClears(s.past, source, sn);
    var r := RemoveFirst(s.past, source, sn);
    forall i | 0 <= i < |r|
      ensures r[i].source != me ==> IsDelivered(s.delivered, r[i].source, r[i].sn)
      ensures r[i].source == me ==> r[i].sn < s.seqNumber
    {
      var j :| 0 <= j < |s.past| && s.past[j] == r[i];
    }
  }

  /**
   * With the correction, collection works: once a message's entry counts
   * every correct process, the past keeps no copy of it. Every step keeps
   * the past invariant (ProcessInit aside, and given that no message
   * carries itself in its own past).
   */
  lemma CollectionClears(s: State, e: Event, ser: Message -> Payload, me: Addr)
    requires s.inited && NW.SelfAddr(s.correct) == Some(me) && PastInv(s, me) && !e.ProcessInit?
    requires e.Up? ==> NW.NotInOwnPast(e.source, e.m)
    ensures PastInv(Handle(s, e, ser).s, me)
    ensures e.Ack? && ParseAck(e.m).Some? && Handle(s, e, ser).s.past != s.past ==>
      !IsDelivered(Handle(s, e, ser).s.past, ParseAck(e.m).value.1, ParseAck(e.m).value.0)
  {
    match e
    case ChannelInit =>
    case Other =>
    case Crash(p) =>
    case Down(cls, m) =>
      SendKeepsInv(s, cls, m, ser, me);
    case Up(source, cls, m) =>
      UpKeepsInv(s, source, cls, m, ser, me);
      assert Handle(s, e, ser) == OnUp(s, source, cls, m, ser, true);
    case Ack(from, m) =>
      AckKeepsInv(s, from, m, me);
      assert Handle(s, e, ser) == OnAck(s, from, m);
  }

  /** A send keeps the past invariant, as in the session without collection. */
  lemma SendKeepsInv(s: State, cls: string, m: Message, ser: Message -> Payload, me: Addr)
    requires s.inited && NW.SelfAddr(s.correct) == Some(me) && PastInv(s, me)
    ensures PastInv(OnDown(s, cls, m, ser).s, me)
  {
    var nws := NW.State(s.correct, s.seqNumber, true, s.delivered, s.past);
    NW.DownKeepsInv(nws, cls, m, ser, me);
    assert NW.Handle(nws, NW.Down(cls, m), ser).s.past == OnDown(s, cls, m, ser).s.past;
  }

  /** An arrival keeps the past invariant, as in the session without collection. */
  lemma UpKeepsInv(s: State, source: Addr, cls: string, m: Message, ser: Message -> Payload, me: Addr)
    requires s.inited && NW.SelfAddr(s.correct) == Some(me) && PastInv(s, me) && NW.NotInOwnPast(source, m)
    ensures PastInv(OnUp(s, source, cls, m, ser, true).s, me)
  {
    var nws := NW.State(s.correct, s.seqNumber, true, s.delivered, s.past);
    NW.UpKeepsInv(nws, source, cls, m, ser, me);
    UpAgrees(s, source, cls, m, ser);
    assert OnUp(s, source, cls, m, ser, true) == Handle(s, Up(source, cls, m), ser);
  }

  /** An acknowledgement either leaves the past alone or removes a message from it entirely. */
  lemma AckKeepsInv(s: State, from: Addr, m: Message, me: Addr)
    requires s.inited && NW.SelfAddr(s.correct) == Some(me) && PastInv(s, me)
    ensures var r := OnAck(s, from, m);
      && PastInv(r.s, me)
      && r.s.delivered == s.delivered
      && (r.s.past == s.past || (ParseAck(m).Some? && r.s.past == RemoveFirst(s.past, ParseAck(m).value.1, ParseAck(m).value.0)
                                 && !IsDelivered(r.s.past, ParseAck(m).value.1, ParseAck(m).value.0)))
  {
    AckShape(s, from, m);
    if ParseAck(m).Some? {
      var (sn, src) := ParseAck(m).value;
      RemoveKeepsInv(s, me, src, sn);
      RemoveFirstClears(s.past, src, sn);
    }
  }

  /** What an acknowledgement can do to the delivered list and the past. */
  lemma AckShape(s: State, from: Addr, m: Message)
    ensures var r := OnAck(s, from, m);
      && r.s.delivered == s.delivered && r.s.seqNumber == s.seqNumber && r.s.inited == s.inited
      && (r.s.past == s.past || (ParseAck(m).Some? && r.s.past == RemoveFirst(s.past, ParseAck(m).value.1, ParseAck(m).value.0)))
  {
    var r := OnAck(s, from, m);
    if NW.SelfAddr(s.correct).Some? && from != NW.SelfAddr(s.correct).value && ParseAck(m).Some? && s.inited {
      var (sn, src) := ParseAck(m).value;
      var (a, i) := FindOrCreate(s.acks, sn, src);
      var a1 := RegAck(a, i, from);
      if GetCorrectSize(s.correct.value).Some? && GetCorrectSize(s.correct.value).value == |a1[i].procs| {
        assert r.s == s.(acks := a1[..i] + a1[i + 1..], past := RemoveFirst(s.past, src, sn));
      } else {
        assert r.s.past == s.past;
      }
    }
  }

  /** Collection changes nothing but the acknowledgements and the past; the catch-up leaves the same delivered list and past as without it. */
  lemma UpAgrees(s: State, source: Addr, cls: string, m: Message, ser: Message -> Payload)
    requires s.inited && NW.SelfAddr(s.correct).Some?
    ensures var r := Handle(s, Up(source, cls, m), ser);
      var q := NW.Handle(NW.State(s.correct, s.seqNumber, true, s.delivered, s.past), NW.Up(source, cls, m), ser);
      r.s.delivered == q.s.delivered && r.s.past == q.s.past && r.s.seqNumber == s.seqNumber
  {
    var nws := NW.State(s.correct, s.seqNumber, true, s.delivered, s.past);
    if PopInt(m).Some? && !IsDelivered(s.delivered, source, PopInt(m).value.0) && PopInt(PopInt(m).value.1).Some? {
      var sq := PopInt(m).value.0;
      var (count, m2) := PopInt(PopInt(m).value.1).value;
      var d := DecodeEntries(m2, count);
      UpSteps(s, source, cls, m, ser, true);
      ArriveSteps(s, source, cls, sq, d, ser, true);
      NW.UpSteps(nws, source, cls, m, ser, true);
    }
  }

  /**
   * Sending is as without collection: the message goes down with the whole
   * past on it, and the local process's own message joins the past under
   * the next number; the acknowledgement list is left alone.
   */
  lemma SendAgrees(s: State, cls: string, m: Message, ser: Message -> Payload)
    requires s.inited && NW.SelfAddr(s.correct).Some?
    ensures var r := Handle(s, Down(cls, m), ser);
      var q := NW.Handle(NW.State(s.correct, s.seqNumber, true, s.delivered, s.past), NW.Down(cls, m), ser);
      && !r.raised && !q.raised
      && r.out == [Send(Encode(m, s.past, s.seqNumber))]
      && r.s.past == q.s.past == s.past + [Elem(NW.SelfAddr(s.correct).value, s.seqNumber, cls, ser(m))]
      && r.s.seqNumber == q.s.seqNumber == s.seqNumber + 1
      && r.s.delivered == s.delivered && r.s.acks == s.acks
      && DecodeEntries(EncodeEntries(m, s.past), |s.past|) == Decoded(s.past, m, true)
  {
    NW.SendRecordsOwn(NW.State(s.correct, s.seqNumber, true, s.delivered, s.past), cls, m, ser);
  }

  /** A message whose sender and number were delivered already is discarded: no delivery, no acknowledgement. */
  lemma DuplicateDiscarded(s: State, source: Addr, cls: string, m: Message, sq: int, ser: Message -> Payload)
    requires s.inited && IsDelivered(s.delivered, source, sq)
    ensures Handle(s, Up(source, cls, Push(m, IntItem(sq))), ser) == Step(s, [], false)
  {
    PopIntPush(m, sq);
  }

  /** A crash only clears the process's flag; neither the past nor the acknowledgement list changes. */
  lemma CrashLeavesPast(s: State, p: int, ser: Message -> Payload)
    requires s.correct.Some?
    ensures var r := Handle(s, Crash(p), ser);
      && (r.raised <==> !(0 <= p < PS.Size(s.correct.value) && s.correct.value.procs[p].Some?))
      && r.s.past == s.past && r.s.acks == s.acks && r.s.delivered == s.delivered
      && (!r.raised ==> r.s.correct.Some? && !PS.IsCorrect(r.s.correct.value, p))
  {
  }

  // A concrete run: three processes, the local one at address 2, which has
  // sent one message (number 0). Process 0 sends a message carrying it in
  // its past before the local copy comes back; then processes 0 and 1
  // acknowledge the local message.

  function AfterOwnSend(): State
  {
    State(Some(PS.ThreeCorrect()), 1, true, [], [NW.Mine()], [])
  }

  /** The state after the carrying message, as the session is written and as corrected. */
  function AfterCarrier(corrected: bool, ser: Message -> Payload): State
  {
    var le := Elem(0, 0, "app", ser([]));
    State(Some(PS.ThreeCorrect()), 1, true, [NW.Mine(), le],
          (if corrected then [NW.Mine()] else [NW.Mine(), NW.Mine()]) + [le],
          [AckEntry(0, 2, [2]), AckEntry(0, 0, [2])])
  }

  lemma CarrierReached(corrected: bool, ser: Message -> Payload)
    ensures HandleWith(AfterOwnSend(), Up(0, "app", NW.Carrier()), ser, corrected) == Step(AfterCarrier(corrected, ser),
      [DeliverPast(NW.Mine()), SendAck(AckFrame(2, 0)), Deliver(0, []), SendAck(AckFrame(0, 0))], false)
  {
    EncodeRoundTrip([], [NW.Mine()], 0);
    UpSteps(AfterOwnSend(), 0, "app", NW.Carrier(), ser, corrected);
    CarrierArrives(corrected, ser);
  }

  /** The fields of the state and the outputs after the carrying message, one by one. */
  lemma CarrierArrivesFields(corrected: bool, ser: Message -> Payload)
    ensures var r := Arrive(AfterOwnSend(), 0, "app", 0, Decoded([NW.Mine()], [], true), ser, corrected);
      var le := Elem(0, 0, "app", ser([]));
      && !r.raised
      && r.s.acks == [AckEntry(0, 2, [2]), AckEntry(0, 0, [2])]
      && r.out == [DeliverPast(NW.Mine()), SendAck(AckFrame(2, 0))] + [Deliver(0, []), SendAck(AckFrame(0, 0))]
      && r.s.delivered == [NW.Mine()] + [le]
      && r.s.past == (if corrected then [NW.Mine()] else [NW.Mine(), NW.Mine()]) + [le]
      && r.s.correct == Some(PS.ThreeCorrect()) && r.s.seqNumber == 1 && r.s.inited
  {
    var s := AfterOwnSend();
    var d := Decoded([NW.Mine()], [], true);
    assert NW.SelfAddr(s.correct) == Some(2);
    ArriveSteps(s, 0, "app", 0, d, ser, corrected);
    var c := NW.CatchUp(s.delivered, s.past, d.entries, if corrected then Some(2) else None);
    CarrierCatchUp(corrected);
    var ack := AckAll(s.acks, NW.PastDelivered(c.out), 2);
    CarrierAcks();
    assert ack == ([AckEntry(0, 2, [2])], [DeliverPast(NW.Mine()), SendAck(AckFrame(2, 0))]);
  }

  lemma CarrierArrives(corrected: bool, ser: Message -> Payload)
    ensures Arrive(AfterOwnSend(), 0, "app", 0, Decoded([NW.Mine()], [], true), ser, corrected) == Step(AfterCarrier(corrected, ser),
      [DeliverPast(NW.Mine()), SendAck(AckFrame(2, 0)), Deliver(0, []), SendAck(AckFrame(0, 0))], false)
  {
    CarrierArrivesFields(corrected, ser);
    var r := Arrive(AfterOwnSend(), 0, "app", 0, Decoded([NW.Mine()], [], true), ser, corrected);
    var want := AfterCarrier(corrected, ser);
    assert want.delivered == r.s.delivered && want.past == r.s.past && want.acks == r.s.acks;
    assert want.correct == r.s.correct && want.seqNumber == r.s.seqNumber && want.inited == r.s.inited;
    assert r.s == want;
  }

  /** The acknowledgement list on the carrying message: an entry for the local message, then one for the carrier, each acknowledged locally. */
  lemma CarrierAcks()
    ensures AckAll([], [NW.Mine()], 2) == ([AckEntry(0, 2, [2])], [DeliverPast(NW.Mine()), SendAck(AckFrame(2, 0))])
    ensures var a1 := [AckEntry(0, 2, [2])];
      RegAck(FindOrCreate(a1, 0, 0).0, FindOrCreate(a1, 0, 0).1, 2) == [AckEntry(0, 2, [2]), AckEntry(0, 0, [2])]
  {
    var a1 := [AckEntry(0, 2, [2])];
    var none: seq<AckEntry> := [];
    assert FindAck(none, 0, 2) == -1;
    assert none + [AckEntry(0, 2, [])] == [AckEntry(0, 2, [])];
    assert FindOrCreate(none, 0, 2) == ([AckEntry(0, 2, [])], 0);
    AckAllSingle(none, NW.Mine(), 2);
    var noAddr: seq<Addr> := [];
    assert noAddr + [2] == [2];
    assert RegAck([AckEntry(0, 2, noAddr)], 0, 2) == a1;
    assert FindOrCreate(a1, 0, 0) == (a1 + [AckEntry(0, 0, [])], 1);
    assert a1 + [AckEntry(0, 0, noAddr)] == [AckEntry(0, 2, [2]), AckEntry(0, 0, noAddr)];
  }

  /** Acknowledging a single delivery. */
  lemma AckAllSingle(acks: seq<AckEntry>, e: Elem, me: Addr)
    ensures var (a, j) := FindOrCreate(acks, e.sn, e.source);
      AckAll(acks, [e], me) == (RegAck(a, j, me), [DeliverPast(e), SendAck(AckFrame(e.source, e.sn))])
  {
    assert [e][1..] == [];
    var (a, j) := FindOrCreate(acks, e.sn, e.source);
    assert SendAckFor(acks, e, Some(me)) == (RegAck(a, j, me), [SendAck(AckFrame(e.source, e.sn))], false);
    assert AckAll(RegAck(a, j, me), [], me) == (RegAck(a, j, me), []);
    assert [DeliverPast(e)] + [SendAck(AckFrame(e.source, e.sn))] + [] == [DeliverPast(e), SendAck(AckFrame(e.source, e.sn))];
  }

  /** The catch-up on the carrying message delivers the local message, and adds it to the past again only as written. */
  lemma CarrierCatchUp(corrected: bool)
    ensures var c := NW.CatchUp([], [NW.Mine()], [NW.Mine()], if corrected then Some(2) else None);
      && c.out == [NW.DeliverPast(NW.Mine())]
      && c.delivered == [NW.Mine()]
      && c.past == (if corrected then [NW.Mine()] else [NW.Mine(), NW.Mine()])
      && NW.PastDelivered(c.out) == [NW.Mine()]
  {
    var c := NW.CatchUp([], [NW.Mine()], [NW.Mine()], if corrected then Some(2) else None);
    assert [NW.Mine()][1..] == [];
    assert c.out[1..] == [];
  }

  /** Both acknowledgements from the other processes: the second completes the count of three. */
  function AfterAcks(s: State): Step
  {
    var r1 := OnAck(s, 0, AckFrame(2, 0));
    OnAck(r1.s, 1, AckFrame(2, 0))
  }

  /** From the state after the carrying message, the two acknowledgements complete the local message's entry and collect it. */
  lemma AcksCollect(s: State)
    requires s.inited && s.correct == Some(PS.ThreeCorrect()) && s.acks == [AckEntry(0, 2, [2]), AckEntry(0, 0, [2])]
    ensures AfterAcks(s) == Step(s.(acks := [AckEntry(0, 0, [2])], past := RemoveFirst(s.past, 2, 0)), [], false)
  {
    AckRoundTrip(2, 0);
    assert NW.SelfAddr(s.correct) == Some(2);
    assert FindAck(s.acks, 0, 2) == 0;
    assert FindOrCreate(s.acks, 0, 2) == (s.acks, 0);
    assert [2] + [0] == [2, 0];
    assert RegAck(s.acks, 0, 0) == [AckEntry(0, 2, [2, 0]), AckEntry(0, 0, [2])];
    assert GetCorrectSize(s.correct.value) == Some(3);
    var r1 := OnAck(s, 0, AckFrame(2, 0));
    assert r1 == Step(s.(acks := [AckEntry(0, 2, [2, 0]), AckEntry(0, 0, [2])]), [], false);
    assert FindAck(r1.s.acks, 0, 2) == 0;
    var a2 := [AckEntry(0, 2, [2, 0, 1]), AckEntry(0, 0, [2])];
    assert [2, 0] + [1] == [2, 0, 1];
    assert RegAck(r1.s.acks, 0, 1) == a2;
    assert a2[..0] + a2[1..] == [AckEntry(0, 0, [2])];
  }

  /**
   * As written, collection removes one copy of the local message but the
   * second copy stays in the past, with no entry left to count its
   * acknowledgements: every later message still carries it.
   */
  lemma AsWrittenKeepsCollected(ser: Message -> Payload)
    ensures var r := AfterAcks(AfterCarrier(false, ser));
      && !r.raised && r.s.acks == [AckEntry(0, 0, [2])]
      && IsDelivered(r.s.past, 2, 0)
  {
    var s := AfterCarrier(false, ser);
    AcksCollect(s);
    assert FindElem(s.past, 2, 0) == 0;
    assert RemoveFirst(s.past, 2, 0)[0] == NW.Mine();
  }

  /** With the correction, the same acknowledgements leave no copy of the local message in the past. */
  lemma CorrectedCollects(ser: Message -> Payload)
    ensures var r := AfterAcks(AfterCarrier(true, ser));
      && !r.raised && r.s.acks == [AckEntry(0, 0, [2])]
      && !IsDelivered(r.s.past, 2, 0)
  {
    var s := AfterCarrier(true, ser);
    AcksCollect(s);
    assert FindElem(s.past, 2, 0) == 0;
    assert RemoveFirst(s.past, 2, 0) == [Elem(0, 0, "app", ser([]))];
  }
}
