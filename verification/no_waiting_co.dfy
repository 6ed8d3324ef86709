/**
 * Causal order by carrying the past ("no-waiting" causal order). Every
 * message carries the list of messages its sender delivered or sent before
 * it. A receiver first delivers every message of that list it has not yet
 * delivered, then the message itself, so nothing waits. Messages are
 * identified by sender address and the sender's sequence number.
 */
module NoWaitingCO {
  import opened Common
  import PS = ProcessSet
  import opened Stack
  import opened PastList

  /**
   * `processes` is `None` before ProcessInit; `inited` is false until
   * ChannelInit creates the two lists.
   */
  datatype State = State(processes: Option<PS.ProcessSet>, seqNumber: int, inited: bool, delivered: seq<Elem>, past: seq<Elem>)

  /** `Down` and `Up` carry the class name of the event. */
  datatype Event =
    | ChannelInit
    | ProcessInit(ps: PS.ProcessSet)
    | Down(cls: string, m: Message)
    | Up(source: Addr, cls: string, m: Message)
    | Other

  /**
   * `Pass`: the event goes on; `Send(m)`: down with the past on it;
   * `Deliver(source, m)`: the arriving message, up; `DeliverPast(e)`: a
   * message of the carried past, rebuilt and sent up.
   */
  datatype Out = Pass | Send(m: Message) | Deliver(source: Addr, m: Message) | DeliverPast(e: Elem)

  datatype Step = Step(s: State, out: seq<Out>, raised: bool)

  function Init(): (s: State)
    ensures s.processes.None? && s.seqNumber == 0 && !s.inited
  {
    State(None, 0, false, [], [])
  }

  /** The local process's address; `None` when the local rank is out of range or its slot empty (the lookup raises). */
  function SelfAddr(ps: Option<PS.ProcessSet>): (r: Option<Addr>)
  {
    if ps.None? || !(0 <= ps.value.self < PS.Size(ps.value)) || PS.GetSelfProcess(ps.value).None? then None
    else Some(PS.GetSelfProcess(ps.value).value.addr)
  }

  /**
   * `handleSendableEventDOWN`: the message goes down with the past list
   * and the sequence number on it; then a copy without headers joins the
   * past under the local address and the current number, and the number
   * moves on.
   */
  function OnDown(s: State, cls: string, m: Message, ser: Message -> Payload): (r: Step)
    ensures r.raised <==> !s.inited || SelfAddr(s.processes).None?
    ensures !s.inited ==> r == Step(s, [], true)
    ensures s.inited ==> |r.out| == 1 && r.out[0].Send? && CarriesPast(r.out[0].m, m, s.past, s.seqNumber)
    ensures r.s.delivered == s.delivered && r.s.processes == s.processes
    ensures !r.raised ==>
      r.s.past == s.past + [Elem(SelfAddr(s.processes).value, s.seqNumber, cls, ser(m))] && r.s.seqNumber == s.seqNumber + 1
  {
    if !s.inited then Step(s, [], true)
    else
      EncodeRoundTrip(m, s.past, s.seqNumber);
      var out := [Send(Encode(m, s.past, s.seqNumber))];
      match SelfAddr(s.processes)
      case None => Step(s, out, true)
      case Some(me) =>
        Step(s.(past := s.past + [Elem(me, s.seqNumber, cls, ser(m))], seqNumber := s.seqNumber + 1), out, false)
  }

  /**
   * `msg` decodes, as a receiver pops it, to the sequence number `sq`, the
   * carried past `past` and the message `m` beneath.
   */
  predicate CarriesPast(msg: Message, m: Message, past: seq<Elem>, sq: int)
  {
    && PopInt(msg).Some? && PopInt(msg).value.0 == sq
    && PopInt(PopInt(msg).value.1).Some? && PopInt(PopInt(msg).value.1).value.0 == |past|
    && DecodeEntries(PopInt(PopInt(msg).value.1).value.1, |past|) == Decoded(past, m, true)
  }

  /** The outcome of the loop over the carried past. */
  datatype Catchup = Catchup(delivered: seq<Elem>, past: seq<Elem>, out: seq<Out>)

  /**
   * The loop over the carried past, in list order: an entry not yet
   * delivered is delivered, recorded as delivered and added to the local
   * past. `skip` names an address whose entries are not added to the past
   * (`None` as written: every entry is added).
   */
  function CatchUp(delivered: seq<Elem>, past: seq<Elem>, entries: seq<Elem>, skip: Option<Addr>): (r: Catchup)
    ensures |delivered| <= |r.delivered| && r.delivered[..|delivered|] == delivered
    ensures |past| <= |r.past| && r.past[..|past|] == past
    decreases |entries|
  {
    if entries == [] then Catchup(delivered, past, [])
    else
      var e := entries[0];
      if IsDelivered(delivered, e.source, e.sn) then CatchUp(delivered, past, entries[1..], skip)
      else
        var rest := CatchUp(delivered + [e], past + (if skip == Some(e.source) then [] else [e]), entries[1..], skip);
        assert (delivered + [e])[..|delivered|] == delivered;
        assert (past + (if skip == Some(e.source) then [] else [e]))[..|past|] == past;
        Catchup(rest.delivered, rest.past, [DeliverPast(e)] + rest.out)
  }

  /**
   * `handleSendableEventUP`: a message already delivered is discarded;
   * otherwise the carried past is caught up on, the message delivered and
   * recorded, and added to the past unless it is the local process's own
   * (already there since it was sent). `skipOwnPast` says whether the
   * catch-up also leaves the local process's own messages out of the past.
   */
  function OnUp(s: State, source: Addr, cls: string, m: Message, ser: Message -> Payload, skipOwnPast: bool): (r: Step)
    ensures PopInt(m).None? || !s.inited ==> r == Step(s, [], true)
    ensures PopInt(m).Some? && s.inited && IsDelivered(s.delivered, source, PopInt(m).value.0) ==> r == Step(s, [], false)
    ensures r.s.seqNumber == s.seqNumber && r.s.processes == s.processes && r.s.inited == s.inited
    ensures s.delivered <= r.s.delivered && s.past <= r.s.past
    ensures forall i :: 0 <= i < |r.out| ==>
      || (r.out[i].DeliverPast? && !IsDelivered(s.delivered, r.out[i].e.source, r.out[i].e.sn))
      || (i == |r.out| - 1 && r.out[i].Deliver? && r.out[i].source == source)
    ensures !r.raised && r.out != [] ==>
      && r.out[|r.out| - 1].Deliver?
      && IsDelivered(r.s.delivered, source, PopInt(m).value.0)
  {
    match PopInt(m)
    case None => Step(s, [], true)
    case Some((sq, m1)) =>
      if !s.inited then Step(s, [], true)
      else if IsDelivered(s.delivered, source, sq) then Step(s, [], false)
      else
        match PopInt(m1)
        case None => Step(s, [], true)
        case Some((count, m2)) =>
          var d := DecodeEntries(m2, count);
          var skip := if skipOwnPast then SelfAddr(s.processes) else None;
          var c := CatchUp(s.delivered, s.past, d.entries, skip);
          CatchUpDelivers(s.delivered, s.past, d.entries, skip);
          var s1 := s.(delivered := c.delivered, past := c.past);
          assert s.delivered <= s1.delivered && s.past <= s1.past;
          if !d.ok then Step(s1, c.out, true)
          else
            var le := Elem(source, sq, cls, ser(d.rest));
            var s2 := s1.(delivered := s1.delivered + [le]);
            IsDeliveredAppend(s1.delivered, le, source, sq);
            var out := c.out + [Deliver(source, d.rest)];
            assert forall i :: 0 <= i < |c.out| ==> out[i] == c.out[i];
            assert s.delivered <= s2.delivered && s.past <= s2.past + [le];
            match SelfAddr(s.processes)
            case None => Step(s2, out, true)
            case Some(me) => Step(if source != me then s2.(past := s2.past + [le]) else s2, out, false)
  }

  /**
   * `handle`, with or without the correction: the sequence number never goes
   * back; only a send goes down, carrying the past; only an arrival
   * delivers; and the delivered list only grows, short of a ChannelInit.
   */
  function HandleWith(s: State, e: Event, ser: Message -> Payload, skipOwnPast: bool): (r: Step)
    ensures s.seqNumber <= r.s.seqNumber
    ensures forall i :: 0 <= i < |r.out| && r.out[i].Send? ==> e.Down? && CarriesPast(r.out[i].m, e.m, s.past, s.seqNumber)
    ensures forall i :: 0 <= i < |r.out| && (r.out[i].Deliver? || r.out[i].DeliverPast?) ==> e.Up?
    ensures !e.ChannelInit? ==> |s.delivered| <= |r.s.delivered| && r.s.delivered[..|s.delivered|] == s.delivered
  {
    match e
    case ChannelInit => Step(s.(inited := true, delivered := [], past := []), [Pass], false)
    case ProcessInit(ps) => Step(s.(processes := Some(ps)), [Pass], false)
    case Down(cls, m) => OnDown(s, cls, m, ser)
    case Up(source, cls, m) => OnUp(s, source, cls, m, ser, skipOwnPast)
    case Other => Step(s, [Pass], false)
  }

  /** The session as written: the catch-up adds every message it delivers to the past, the local process's own included. */
  function HandleAsWritten(s: State, e: Event, ser: Message -> Payload): (r: Step)
    ensures s.seqNumber <= r.s.seqNumber
    ensures forall i :: 0 <= i < |r.out| && r.out[i].Send? ==> e.Down? && CarriesPast(r.out[i].m, e.m, s.past, s.seqNumber)
    ensures !e.ChannelInit? ==> |s.delivered| <= |r.s.delivered| && r.s.delivered[..|s.delivered|] == s.delivered
  {
    HandleWith(s, e, ser, false)
  }

  /** The session with the local process's own messages kept out of the past on catch-up too. */
  function Handle(s: State, e: Event, ser: Message -> Payload): (r: Step)
    ensures s.seqNumber <= r.s.seqNumber
    ensures forall i :: 0 <= i < |r.out| && r.out[i].Send? ==> e.Down? && CarriesPast(r.out[i].m, e.m, s.past, s.seqNumber)
    ensures !e.ChannelInit? ==> |s.delivered| <= |r.s.delivered| && r.s.delivered[..|s.delivered|] == s.delivered
  {
    HandleWith(s, e, ser, true)
  }

  /**
   * A send puts the past and the current number on the message, in the
   * form the receiver decodes; the copy joins the past under the local
   * address and the old number, and the number grows by one.
   */
  lemma SendRecordsOwn(s: State, cls: string, m: Message, ser: Message -> Payload)
    requires s.inited && SelfAddr(s.processes).Some?
    ensures var r := Handle(s, Down(cls, m), ser);
      && !r.raised
      && r.s.past == s.past + [Elem(SelfAddr(s.processes).value, s.seqNumber, cls, ser(m))]
      && r.s.seqNumber == s.seqNumber + 1
      && r.s.delivered == s.delivered
      && r.out == [Send(Encode(m, s.past, s.seqNumber))]
      && DecodeEntries(EncodeEntries(m, s.past), |s.past|) == Decoded(s.past, m, true)
  {
    EncodeRoundTrip(m, s.past, s.seqNumber);
  }

  /** A message whose sender and number were delivered already is discarded and nothing changes. */
  lemma DuplicateDiscarded(s: State, source: Addr, cls: string, m: Message, sq: int, ser: Message -> Payload)
    requires s.inited && IsDelivered(s.delivered, source, sq)
    ensures Handle(s, Up(source, cls, Push(m, IntItem(sq))), ser) == Step(s, [], false)
    ensures HandleAsWritten(s, Up(source, cls, Push(m, IntItem(sq))), ser) == Step(s, [], false)
  {
    PopIntPush(m, sq);
  }

  /** The deliveries of a catch-up, as list elements. */
  function PastDelivered(out: seq<Out>): (r: seq<Elem>)
    ensures |r| <= |out|
  {
    if out == [] then []
    else (if out[0].DeliverPast? then [out[0].e] else []) + PastDelivered(out[1..])
  }

  /**
   * The catch-up delivers the carried entries not yet delivered, in list
   * order, each once: the delivered list grows by exactly the entries it
   * delivers, and every carried entry is delivered at the end.
   */
  lemma {:induction false} CatchUpDelivers(delivered: seq<Elem>, past: seq<Elem>, entries: seq<Elem>, skip: Option<Addr>)
    ensures CaughtUp(delivered, entries, CatchUp(delivered, past, entries, skip))
    decreases |entries|
  {
    if entries != [] {
      var e := entries[0];
      if IsDelivered(delivered, e.source, e.sn) {
        CatchUpDelivers(delivered, past, entries[1..], skip);
        SkipCaughtUp(delivered, past, entries, skip);
      } else {
        var p1 := past + (if skip == Some(e.source) then [] else [e]);
        CatchUpDelivers(delivered + [e], p1, entries[1..], skip);
        DeliverCaughtUp(delivered, past, entries, skip);
      }
    }
  }

  /**
   * What the catch-up of `entries` promises: the delivered list grows by
   * exactly what it delivers, all of it new, and every entry ends up
   * delivered.
   */
  predicate CaughtUp(delivered: seq<Elem>, entries: seq<Elem>, c: Catchup)
  {
    && c.delivered == delivered + PastDelivered(c.out)
    && (forall i :: 0 <= i < |c.out| ==> c.out[i].DeliverPast? && !IsDelivered(delivered, c.out[i].e.source, c.out[i].e.sn))
    && (forall i :: 0 <= i < |entries| ==> IsDelivered(c.delivered, entries[i].source, entries[i].sn))
  }

  /** The step of the catch-up that passes over an entry already delivered. */
  lemma SkipCaughtUp(delivered: seq<Elem>, past: seq<Elem>, entries: seq<Elem>, skip: Option<Addr>)
    requires entries != [] && IsDelivered(delivered, entries[0].source, entries[0].sn)
    requires CaughtUp(delivered, entries[1..], CatchUp(delivered, past, entries[1..], skip))
    ensures CaughtUp(delivered, entries, CatchUp(delivered, past, entries, skip))
  {
    var e := entries[0];
    var c := CatchUp(delivered, past, entries, skip);
    assert c == CatchUp(delivered, past, entries[1..], skip);
    var k :| 0 <= k < |delivered| && delivered[k].source == e.source && delivered[k].sn == e.sn;
    assert c.delivered[k] == delivered[k];
    forall i | 1 <= i < |entries|
      ensures IsDelivered(c.delivered, entries[i].source, entries[i].sn)
    {
      assert entries[i] == entries[1..][i - 1];
    }
  }

  /** The step of the catch-up that delivers a new entry. */
  lemma DeliverCaughtUp(delivered: seq<Elem>, past: seq<Elem>, entries: seq<Elem>, skip: Option<Addr>)
    requires entries != [] && !IsDelivered(delivered, entries[0].source, entries[0].sn)
    requires var e := entries[0];
      CaughtUp(delivered + [e], entries[1..], CatchUp(delivered + [e], past + (if skip == Some(e.source) then [] else [e]), entries[1..], skip))
    ensures CaughtUp(delivered, entries, CatchUp(delivered, past, entries, skip))
  {
    var e := entries[0];
    var c := CatchUp(delivered, past, entries, skip);
    var rest := CatchUp(delivered + [e], past + (if skip == Some(e.source) then [] else [e]), entries[1..], skip);
    assert c.out == [DeliverPast(e)] + rest.out && c.delivered == rest.delivered;
    DeliveredStepCaughtUp(delivered, entries, c, rest);
  }

  /** `CaughtUp` across one delivering step, for any catch-up results related as that step relates them. */
  lemma DeliveredStepCaughtUp(delivered: seq<Elem>, entries: seq<Elem>, c: Catchup, rest: Catchup)
    requires entries != [] && !IsDelivered(delivered, entries[0].source, entries[0].sn)
    requires c.out == [DeliverPast(entries[0])] + rest.out && c.delivered == rest.delivered
    requires CaughtUp(delivered + [entries[0]], entries[1..], rest)
    ensures CaughtUp(delivered, entries, c)
  {
    var e := entries[0];
    assert PastDelivered(c.out) == [e] + PastDelivered(rest.out) by {
      assert c.out[1..] == rest.out;
    }
    forall i | 0 <= i < |c.out|
      ensures c.out[i].DeliverPast? && !IsDelivered(delivered, c.out[i].e.source, c.out[i].e.sn)
    {
      if i > 0 {
        assert c.out[i] == rest.out[i - 1];
        var x := c.out[i].e;
        IsDeliveredAppend(delivered, e, x.source, x.sn);
      }
    }
    assert (delivered + [e])[|delivered|] == e && rest.delivered[|delivered|] == e;
    forall i | 1 <= i < |entries|
      ensures IsDelivered(c.delivered, entries[i].source, entries[i].sn)
    {
      assert entries[i] == entries[1..][i - 1];
    }
  }

  /**
   * A message not yet delivered, whose two numbers pop: the carried entries
   * that decode are caught up on; when all decode, the message is then
   * delivered and recorded, and added to the past unless it is the local
   * process's own. Only a short past list or an unknown local process
   * raises.
   */
  lemma UpSteps(s: State, source: Addr, cls: string, m: Message, ser: Message -> Payload, skipOwnPast: bool)
    requires s.inited && PopInt(m).Some? && PopInt(PopInt(m).value.1).Some?
    requires !IsDelivered(s.delivered, source, PopInt(m).value.0)
    ensures var sq := PopInt(m).value.0;
      var (count, m2) := PopInt(PopInt(m).value.1).value;
      var d := DecodeEntries(m2, count);
      var c := CatchUp(s.delivered, s.past, d.entries, if skipOwnPast then SelfAddr(s.processes) else None);
      var le := Elem(source, sq, cls, ser(d.rest));
      var r := OnUp(s, source, cls, m, ser, skipOwnPast);
      && r.raised == (!d.ok || SelfAddr(s.processes).None?)
      && r.out == (if d.ok then c.out + [Deliver(source, d.rest)] else c.out)
      && r.s.delivered == (if d.ok then c.delivered + [le] else c.delivered)
      && r.s.past == (if d.ok && SelfAddr(s.processes).Some? && source != SelfAddr(s.processes).value then c.past + [le] else c.past)
      && r.s.seqNumber == s.seqNumber && r.s.processes == s.processes && r.s.inited
  {
    var (sq, m1) := PopInt(m).value;
    var (count, m2) := PopInt(m1).value;
    var d := DecodeEntries(m2, count);
    var c := CatchUp(s.delivered, s.past, d.entries, if skipOwnPast then SelfAddr(s.processes) else None);
    var r := OnUp(s, source, cls, m, ser, skipOwnPast);
    var s1 := s.(delivered := c.delivered, past := c.past);
    if d.ok {
      var le := Elem(source, sq, cls, ser(d.rest));
      var s2 := s1.(delivered := s1.delivered + [le]);
      if SelfAddr(s.processes).Some? {
        var me := SelfAddr(s.processes).value;
        assert r == Step(if source != me then s2.(past := s2.past + [le]) else s2, c.out + [Deliver(source, d.rest)], false);
      } else {
        assert r == Step(s2, c.out + [Deliver(source, d.rest)], true);
      }
    } else {
      assert r == Step(s1, c.out, true);
    }
  }

  /** The arrival of a message in the form a sender builds: its carried past caught up on, then the message itself. */
  lemma UpEncoded(s: State, source: Addr, cls: string, m: Message, past: seq<Elem>, sq: int, ser: Message -> Payload, skipOwnPast: bool)
    requires s.inited && !IsDelivered(s.delivered, source, sq)
    ensures var c := CatchUp(s.delivered, s.past, past, if skipOwnPast then SelfAddr(s.processes) else None);
      var le := Elem(source, sq, cls, ser(m));
      var r := HandleWith(s, Up(source, cls, Encode(m, past, sq)), ser, skipOwnPast);
      && r.raised == SelfAddr(s.processes).None?
      && r.out == c.out + [Deliver(source, m)]
      && r.s.delivered == c.delivered + [le]
      && r.s.past == (if SelfAddr(s.processes).Some? && source != SelfAddr(s.processes).value then c.past + [le] else c.past)
  {
    var msg := Encode(m, past, sq);
    EncodeRoundTrip(m, past, sq);
    var m1 := Push(EncodeEntries(m, past), IntItem(|past|));
    assert PopInt(msg) == Some((sq, m1));
    assert PopInt(m1) == Some((|past|, EncodeEntries(m, past)));
    UpDecoded(s, source, cls, msg, m1, EncodeEntries(m, past), m, past, sq, ser, skipOwnPast);
  }

  /** The arrival of any message whose sequence number, count and entries decode to `sq`, `past` and `m`. */
  lemma UpDecoded(s: State, source: Addr, cls: string, msg: Message, m1: Message, m2: Message, m: Message,
                  past: seq<Elem>, sq: int, ser: Message -> Payload, skipOwnPast: bool)
    requires s.inited && !IsDelivered(s.delivered, source, sq)
    requires PopInt(msg) == Some((sq, m1)) && PopInt(m1) == Some((|past|, m2))
    requires DecodeEntries(m2, |past|) == Decoded(past, m, true)
    ensures var c := CatchUp(s.delivered, s.past, past, if skipOwnPast then SelfAddr(s.processes) else None);
      var le := Elem(source, sq, cls, ser(m));
      var r := HandleWith(s, Up(source, cls, msg), ser, skipOwnPast);
      && r.raised == SelfAddr(s.processes).None?
      && r.out == c.out + [Deliver(source, m)]
      && r.s.delivered == c.delivered + [le]
      && r.s.past == (if SelfAddr(s.processes).Some? && source != SelfAddr(s.processes).value then c.past + [le] else c.past)
  {
    UpSteps(s, source, cls, msg, ser, skipOwnPast);
    assert HandleWith(s, Up(source, cls, msg), ser, skipOwnPast) == OnUp(s, source, cls, msg, ser, skipOwnPast);
  }

  /**
   * A new message is delivered after its carried past: the outputs are the
   * catch-up's deliveries followed by the message itself, and afterwards
   * every carried entry and the message are recorded as delivered.
   */
  lemma PastBeforeMessage(s: State, source: Addr, cls: string, m: Message, past: seq<Elem>, sq: int, ser: Message -> Payload)
    requires s.inited && !IsDelivered(s.delivered, source, sq)
    ensures var r := Handle(s, Up(source, cls, Encode(m, past, sq)), ser);
      var c := CatchUp(s.delivered, s.past, past, SelfAddr(s.processes));
      && r.out == c.out + [Deliver(source, m)]
      && (forall i :: 0 <= i < |c.out| ==> c.out[i].DeliverPast? && !IsDelivered(s.delivered, c.out[i].e.source, c.out[i].e.sn))
      && (forall i :: 0 <= i < |past| ==> IsDelivered(r.s.delivered, past[i].source, past[i].sn))
      && IsDelivered(r.s.delivered, source, sq)
  {
    UpEncoded(s, source, cls, m, past, sq, ser, true);
    var c := CatchUp(s.delivered, s.past, past, SelfAddr(s.processes));
    var le := Elem(source, sq, cls, ser(m));
    CatchUpDelivers(s.delivered, s.past, past, SelfAddr(s.processes));
    forall i | 0 <= i < |past|
      ensures IsDelivered(c.delivered + [le], past[i].source, past[i].sn)
    {
      IsDeliveredAppend(c.delivered, le, past[i].source, past[i].sn);
    }
    IsDeliveredAppend(c.delivered, le, source, sq);
  }

  /** The local process's own message, arriving back, is not added to the past a second time. */
  lemma OwnNotReadded(s: State, cls: string, m: Message, past: seq<Elem>, sq: int, ser: Message -> Payload)
    requires s.inited && SelfAddr(s.processes).Some? && !IsDelivered(s.delivered, SelfAddr(s.processes).value, sq)
    ensures var r := Handle(s, Up(SelfAddr(s.processes).value, cls, Encode(m, past, sq)), ser);
      && !r.raised
      && r.s.past == CatchUp(s.delivered, s.past, past, SelfAddr(s.processes)).past
  {
    UpEncoded(s, SelfAddr(s.processes).value, cls, m, past, sq, ser, true);
  }

  /**
   * The past list holds each message once: its pairs are different, the
   * other processes' entries are among the delivered ones, and the local
   * process's own carry numbers already used.
   */
  predicate PastInv(s: State, me: Addr)
  {
    && KeysDistinct(s.past)
    && (forall i :: 0 <= i < |s.past| && s.past[i].source != me ==> IsDelivered(s.delivered, s.past[i].source, s.past[i].sn))
    && (forall i :: 0 <= i < |s.past| && s.past[i].source == me ==> s.past[i].sn < s.seqNumber)
  }

  /** An element of another process that is not delivered is not in a past that keeps the invariant. */
  lemma NotInPast(s: State, me: Addr, e: Elem)
    requires PastInv(s, me) && e.source != me && !IsDelivered(s.delivered, e.source, e.sn)
    ensures !IsDelivered(s.past, e.source, e.sn)
  {
    forall k | 0 <= k < |s.past|
      ensures (s.past[k].source, s.past[k].sn) != (e.source, e.sn)
    {
      if s.past[k].source != me {
        assert IsDelivered(s.delivered, s.past[k].source, s.past[k].sn);
      }
    }
  }

  /** Recording one more delivery keeps the invariant. */
  lemma DeliveredGrowsInv(s: State, me: Addr, e: Elem)
    requires PastInv(s, me)
    ensures PastInv(s.(delivered := s.delivered + [e]), me)
  {
    forall i | 0 <= i < |s.past| && s.past[i].source != me
      ensures IsDelivered(s.delivered + [e], s.past[i].source, s.past[i].sn)
    {
      IsDeliveredAppend(s.delivered, e, s.past[i].source, s.past[i].sn);
    }
  }

  /** Recording a new message of another process as delivered and adding it to the past keeps the invariant. */
  lemma AddOtherInv(s: State, me: Addr, e: Elem)
    requires PastInv(s, me) && e.source != me && !IsDelivered(s.delivered, e.source, e.sn)
    ensures PastInv(s.(delivered := s.delivered + [e], past := s.past + [e]), me)
  {
    NotInPast(s, me, e);
    AppendFresh(s.past, e);
    DeliveredGrowsInv(s, me, e);
    IsDeliveredAppend(s.delivered, e, e.source, e.sn);
  }

  /** The catch-up, leaving the local process's entries out, keeps the past free of repeats. */
  lemma {:induction false} CatchUpKeepsInv(s: State, entries: seq<Elem>, me: Addr)
    requires PastInv(s, me)
    ensures var c := CatchUp(s.delivered, s.past, entries, Some(me));
      PastInv(s.(delivered := c.delivered, past := c.past), me)
    decreases |entries|
  {
    if entries != [] {
      var e := entries[0];
      if IsDelivered(s.delivered, e.source, e.sn) {
        CatchUpKeepsInv(s, entries[1..], me);
      } else if e.source == me {
        DeliveredGrowsInv(s, me, e);
        CatchUpKeepsInv(s.(delivered := s.delivered + [e]), entries[1..], me);
      } else {
        AddOtherInv(s, me, e);
        CatchUpKeepsInv(s.(delivered := s.delivered + [e], past := s.past + [e]), entries[1..], me);
      }
    }
  }

  /** No entry of the past a message carries is the message itself. */
  predicate NotInOwnPast(source: Addr, m: Message)
  {
    PopInt(m).Some? && PopInt(PopInt(m).value.1).Some? ==>
      var d := DecodeEntries(PopInt(PopInt(m).value.1).value.1, PopInt(PopInt(m).value.1).value.0);
      forall i :: 0 <= i < |d.entries| ==> (d.entries[i].source, d.entries[i].sn) != (source, PopInt(m).value.0)
  }

  /** A send keeps the invariant: the new number is above every number the local process used. */
  lemma DownKeepsInv(s: State, cls: string, m: Message, ser: Message -> Payload, me: Addr)
    requires s.inited && SelfAddr(s.processes) == Some(me) && PastInv(s, me)
    ensures PastInv(Handle(s, Down(cls, m), ser).s, me)
  {
    var le := Elem(me, s.seqNumber, cls, ser(m));
    forall k | 0 <= k < |s.past|
      ensures (s.past[k].source, s.past[k].sn) != (le.source, le.sn)
    {
      if s.past[k].source == me {
        assert s.past[k].sn < s.seqNumber;
      }
    }
    AppendFresh(s.past, le);
  }

  /** An arrival keeps the invariant, given that the message does not carry itself in its own past. */
  lemma UpKeepsInv(s: State, source: Addr, cls: string, m: Message, ser: Message -> Payload, me: Addr)
    requires s.inited && SelfAddr(s.processes) == Some(me) && PastInv(s, me) && NotInOwnPast(source, m)
    ensures PastInv(Handle(s, Up(source, cls, m), ser).s, me)
  {
    if PopInt(m).Some? && !IsDelivered(s.delivered, source, PopInt(m).value.0) && PopInt(PopInt(m).value.1).Some? {
      UpSteps(s, source, cls, m, ser, true);
      var sq := PopInt(m).value.0;
      var (count, m2) := PopInt(PopInt(m).value.1).value;
      var d := DecodeEntries(m2, count);
      var c := CatchUp(s.delivered, s.past, d.entries, Some(me));
      CatchUpKeepsInv(s, d.entries, me);
      var s1 := s.(delivered := c.delivered, past := c.past);
      if d.ok {
        var le := Elem(source, sq, cls, ser(d.rest));
        CatchUpDelivers(s.delivered, s.past, d.entries, Some(me));
        forall j | 0 <= j < |PastDelivered(c.out)|
          ensures (PastDelivered(c.out)[j].source, PastDelivered(c.out)[j].sn) != (source, sq)
        {
          PastDeliveredFromEntries(s.delivered, s.past, d.entries, Some(me), j);
        }
        NotDeliveredAfterCatchUp(s.delivered, PastDelivered(c.out), source, sq);
        if source != me {
          AddOtherInv(s1, me, le);
        } else {
          DeliveredGrowsInv(s1, me, le);
        }
      }
    }
  }

  /** A pair in neither part of a list is not in the list. */
  lemma NotDeliveredAfterCatchUp(a: seq<Elem>, b: seq<Elem>, source: Addr, sn: int)
    requires !IsDelivered(a, source, sn)
    requires forall j :: 0 <= j < |b| ==> (b[j].source, b[j].sn) != (source, sn)
    ensures !IsDelivered(a + b, source, sn)
  {
    forall k | 0 <= k < |a + b|
      ensures ((a + b)[k].source, (a + b)[k].sn) != (source, sn)
    {
      if k >= |a| {
        assert (a + b)[k] == b[k - |a|];
      } else {
        assert (a + b)[k] == a[k];
      }
    }
  }

  /**
   * With the correction, every step keeps the past free of repeats, given
   * that no message carries itself in its own past. ProcessInit, which
   * may change the local address, is left aside.
   */
  lemma PastHoldsEachOnce(s: State, e: Event, ser: Message -> Payload, me: Addr)
    requires s.inited && SelfAddr(s.processes) == Some(me) && PastInv(s, me) && !e.ProcessInit?
    requires e.Up? ==> NotInOwnPast(e.source, e.m)
    ensures PastInv(Handle(s, e, ser).s, me)
  {
    match e
    case ChannelInit =>
    case Other =>
    case Down(cls, m) => DownKeepsInv(s, cls, m, ser, me);
    case Up(source, cls, m) => UpKeepsInv(s, source, cls, m, ser, me);
  }

  /** Every delivery of a catch-up is one of the carried entries. */
  lemma {:induction false} PastDeliveredFromEntries(delivered: seq<Elem>, past: seq<Elem>, entries: seq<Elem>, skip: Option<Addr>, j: nat)
    requires j < |PastDelivered(CatchUp(delivered, past, entries, skip).out)|
    ensures exists i :: 0 <= i < |entries| && entries[i] == PastDelivered(CatchUp(delivered, past, entries, skip).out)[j]
    decreases |entries|
  {
    var e := entries[0];
    var c := CatchUp(delivered, past, entries, skip);
    if IsDelivered(delivered, e.source, e.sn) {
      PastDeliveredFromEntries(delivered, past, entries[1..], skip, j);
      InTailInList(entries, PastDelivered(c.out)[j]);
    } else {
      var p1 := past + (if skip == Some(e.source) then [] else [e]);
      var rest := CatchUp(delivered + [e], p1, entries[1..], skip);
      assert c.out == [DeliverPast(e)] + rest.out;
      PastDeliveredCons(e, rest.out);
      if j > 0 {
        PastDeliveredFromEntries(delivered + [e], p1, entries[1..], skip, j - 1);
        InTailInList(entries, PastDelivered(c.out)[j]);
      }
    }
  }

  /** A catch-up delivery in front adds its element in front. */
  lemma PastDeliveredCons(e: Elem, out: seq<Out>)
    ensures PastDelivered([DeliverPast(e)] + out) == [e] + PastDelivered(out)
  {
    assert ([DeliverPast(e)] + out)[1..] == out;
  }

  /** What the tail of a list holds, the list holds. */
  lemma InTailInList(entries: seq<Elem>, x: Elem)
    requires entries != [] && exists i :: 0 <= i < |entries[1..]| && entries[1..][i] == x
    ensures exists i :: 0 <= i < |entries| && entries[i] == x
  {
    var i :| 0 <= i < |entries[1..]| && entries[1..][i] == x;
    assert entries[i + 1] == x;
  }

  // A concrete run: three processes, the local one at address 2, which has
  // sent one message (number 0). Before its own copy comes back, process 0
  // sends a message carrying it in its past.

  function Mine(): Elem
  {
    Elem(2, 0, "app", [7])
  }

  function AfterOwnSend(): State
  {
    State(Some(PS.ThreeCorrect()), 1, true, [], [Mine()])
  }

  /** The message from process 0: number 0, carrying the local process's message in its past. */
  function Carrier(): Message
  {
    Encode([], [Mine()], 0)
  }

  /** The carrying message arrives: what the past becomes with and without the correction. */
  lemma CarrierPast(ser: Message -> Payload, skipOwnPast: bool)
    ensures var r := HandleWith(AfterOwnSend(), Up(0, "app", Carrier()), ser, skipOwnPast);
      && !r.raised
      && r.s.past == (if skipOwnPast then [Mine()] else [Mine(), Mine()]) + [Elem(0, 0, "app", ser([]))]
  {
    var s := AfterOwnSend();
    assert SelfAddr(s.processes) == Some(2);
    assert !IsDelivered(s.delivered, 2, 0) && !IsDelivered(s.delivered, 0, 0);
    OwnCarried(s, Mine(), 0, [], ser, skipOwnPast);
    assert s.past + (if skipOwnPast then [] else [Mine()]) == (if skipOwnPast then [Mine()] else [Mine(), Mine()]);
  }

  /**
   * Another process's message, carrying in its past only a message of the
   * local process that the local process has not delivered yet.
   */
  lemma OwnCarried(s: State, own: Elem, source: Addr, m: Message, ser: Message -> Payload, skipOwnPast: bool)
    requires s.inited && SelfAddr(s.processes) == Some(own.source) && source != own.source
    requires !IsDelivered(s.delivered, own.source, own.sn) && !IsDelivered(s.delivered, source, 0)
    ensures var r := HandleWith(s, Up(source, "app", Encode(m, [own], 0)), ser, skipOwnPast);
      && !r.raised
      && r.s.past == s.past + (if skipOwnPast then [] else [own]) + [Elem(source, 0, "app", ser(m))]
  {
    UpEncoded(s, source, "app", m, [own], 0, ser, skipOwnPast);
    CatchUpOne(s.delivered, s.past, own, if skipOwnPast then Some(own.source) else None);
  }

  /** The catch-up of a single entry not yet delivered. */
  lemma CatchUpOne(delivered: seq<Elem>, past: seq<Elem>, e: Elem, skip: Option<Addr>)
    requires !IsDelivered(delivered, e.source, e.sn)
    ensures CatchUp(delivered, past, [e], skip) == Catchup(delivered + [e], past + (if skip == Some(e.source) then [] else [e]), [DeliverPast(e)])
  {
    assert [e][1..] == [];
  }

  /** As written, the catch-up adds the local process's own message to the past a second time. */
  lemma AsWrittenRepeatsOwn(ser: Message -> Payload)
    ensures var r := HandleAsWritten(AfterOwnSend(), Up(0, "app", Carrier()), ser);
      && !r.raised
      && r.s.past[..2] == [Mine(), Mine()]
      && !KeysDistinct(r.s.past)
  {
    CarrierPast(ser, false);
    var r := HandleAsWritten(AfterOwnSend(), Up(0, "app", Carrier()), ser);
    assert r.s.past[0] == r.s.past[1];
  }

  /** With the correction the same run leaves the past with each message once. */
  lemma CorrectedKeepsOwnOnce(ser: Message -> Payload)
    ensures var r := Handle(AfterOwnSend(), Up(0, "app", Carrier()), ser);
      && !r.raised
      && r.s.past == [Mine(), Elem(0, 0, "app", ser([]))]
      && KeysDistinct(r.s.past)
  {
    CarrierPast(ser, true);
  }
}
