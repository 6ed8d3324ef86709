/**
 * Lazy reliable broadcast over a perfect failure detector. A broadcast tags
 * the message with (own process number, sequence number). A message is
 * delivered the first time its identifier arrives and kept in the list of
 * its sender; when the sender is (or later is detected) crashed, the kept
 * messages are broadcast again so that every correct process gets them.
 */
module LazyRB {
  import opened Common
  import PS = ProcessSet
  import opened Stack

  /**
   * `lists` is false until a ChannelInit creates `delivered`; `from` is
   * `None` until a ProcessInit creates one list per rank.
   */
  datatype State = State(
    lists: bool,
    processes: Option<PS.ProcessSet>,
    seqNumber: int,
    from: Option<seq<seq<Message>>>,
    delivered: set<MsgId>)

  datatype Event =
    | ChannelInit
    | ProcessInit(ps: PS.ProcessSet)
    | Down(m: Message)
    | Up(source: Addr, m: Message)
    | Crash(p: int)
    | Other

  /** `Pass`: the handled event goes on; `Send(m)`: down to best-effort broadcast; `Deliver`: up. */
  datatype Out = Pass | Send(m: Message) | Deliver(source: Addr, m: Message)

  datatype Step = Step(s: State, out: seq<Out>, raised: bool)

  /** The constructor sets the sequence number to 0. */
  function Init(): (s: State)
    ensures s.seqNumber == 0 && !s.lists && s.processes.None? && s.from.None?
  {
    State(false, None, 0, None, {})
  }

  /** `rbBroadcast`: tag with (own number, sequence number), count up, send down. */
  function Broadcast(s: State, m: Message): (r: Step)
    ensures r.s.(seqNumber := s.seqNumber) == s
    ensures var self := if s.processes.Some? && 0 <= s.processes.value.self < |s.processes.value.procs|
                        then PS.GetSelfProcess(s.processes.value) else None;
      && (self.None? ==> r == Step(s, [], true))
      && (self.Some? ==>
           r == Step(s.(seqNumber := s.seqNumber + 1), [Send(Push(m, IdItem(MsgId(self.value.number, s.seqNumber))))], false))
  {
    if s.processes.None? || !(0 <= s.processes.value.self < |s.processes.value.procs|) then Step(s, [], true)
    else
      var self := PS.GetSelfProcess(s.processes.value);
      if self.None? then Step(s, [], true)
      else Step(s.(seqNumber := s.seqNumber + 1), [Send(Push(m, IdItem(MsgId(self.value.number, s.seqNumber))))], false)
  }

  /** The identifier on top of a received message, when the top is one (`peekObject` and the cast). */
  function PeekId(m: Message): (r: Option<MsgId>)
    ensures r.Some? <==> m != [] && m[|m| - 1].IdItem?
    ensures r.Some? ==> Pop(m) == Some((IdItem(r.value), m[..|m| - 1]))
  {
    if m != [] && m[|m| - 1].IdItem? then Some(m[|m| - 1].id) else None
  }

  /**
   * `bebDeliver`: a new identifier is recorded and the message delivered
   * without its header; the message with its header is then kept in the
   * sender's list, and sent again at once when the sender is already
   * believed crashed. Looking the sender up happens after the delivery, so
   * an unknown sender raises after delivering.
   */
  function BebDeliver(s: State, source: Addr, m: Message): (r: Step)
    ensures PeekId(m).None? || !s.lists ==> r == Step(s, [], true)
    ensures PeekId(m).Some? && s.lists && PeekId(m).value in s.delivered ==> r == Step(s, [], false)
    ensures PeekId(m).Some? && s.lists && PeekId(m).value !in s.delivered ==>
      var id := PeekId(m).value;
      var p := if s.processes.Some? then PS.GetProcessByAddr(s.processes.value, source) else None;
      && r.s.delivered == s.delivered + {id}
      && r.s.processes == s.processes && r.s.seqNumber == s.seqNumber && r.s.lists
      && |r.out| >= 1 && r.out[0] == Deliver(source, m[..|m| - 1])
      && (r.raised <==> p.None? || s.from.None? || !(0 <= p.value.number < |s.from.value|))
      && (r.raised ==> r.out == [r.out[0]] && r.s.from == s.from)
      && (!r.raised ==>
           && r.s.from == Some(s.from.value[p.value.number := s.from.value[p.value.number] + [m]])
           && r.out == [Deliver(source, m[..|m| - 1])] + (if p.value.correct then [] else [Send(m)]))
  {
    match PeekId(m)
    case None => Step(s, [], true)
    case Some(id) =>
      if !s.lists then Step(s, [], true)
      else if id in s.delivered then Step(s, [], false)
      else
        var s1 := s.(delivered := s.delivered + {id});
        var deliver := Deliver(source, m[..|m| - 1]);
        if s.processes.None? then Step(s1, [deliver], true)
        else
          var p := PS.GetProcessByAddr(s.processes.value, source);
          if p.None? || s.from.None? || !(0 <= p.value.number < |s.from.value|) then Step(s1, [deliver], true)
          else
            var k := p.value.number;
            var s2 := s1.(from := Some(s.from.value[k := s.from.value[k] + [m]]));
            Step(s2, [deliver] + (if p.value.correct then [] else [Send(m)]), false)
  }

  /** Each kept message sent again, in list order. */
  function Resend(kept: seq<Message>): (r: seq<Out>)
    ensures |r| == |kept| && forall i :: 0 <= i < |kept| ==> r[i] == Send(kept[i])
  {
    seq(|kept|, i requires 0 <= i < |kept| => Send(kept[i]))
  }

  /**
   * `handleCrash`: pass the notification on, mark the process crashed, send
   * its kept messages again and empty its list; every other list stays.
   */
  function OnCrash(s: State, p: int): (r: Step)
    ensures r.s.delivered == s.delivered && r.s.seqNumber == s.seqNumber && r.s.lists == s.lists
    ensures |r.out| >= 1 && r.out[0] == Pass
    ensures r.raised <==> s.processes.None? || PS.MarkCrashed(s.processes.value, p).None? || s.from.None? || !(0 <= p < |s.from.value|)
    ensures !r.raised ==>
      && r.s.processes == PS.MarkCrashed(s.processes.value, p)
      && r.out == [Pass] + Resend(s.from.value[p])
      && r.s.from == Some(s.from.value[p := []])
  {
    if s.processes.None? then Step(s, [Pass], true)
    else
      match PS.MarkCrashed(s.processes.value, p)
      case None => Step(s, [Pass], true)
      case Some(ps) =>
        var s1 := s.(processes := Some(ps));
        if s.from.None? || !(0 <= p < |s.from.value|) then Step(s1, [Pass], true)
        else Step(s1.(from := Some(s.from.value[p := []])), [Pass] + Resend(s.from.value[p]), false)
  }

  /** `handle`: events of any other kind are swallowed. */
  function Handle(s: State, e: Event): (r: Step)
    ensures e.ChannelInit? ==> r == Step(s.(lists := true, delivered := {}), [Pass], false)
    ensures e.ProcessInit? ==>
      r == Step(s.(processes := Some(e.ps), from := Some(seq(PS.Size(e.ps), _ => []))), [Pass], false)
    ensures e.Other? ==> r == Step(s, [], false)
  {
    match e
    case ChannelInit => Step(s.(lists := true, delivered := {}), [Pass], false)
    case ProcessInit(ps) => Step(s.(processes := Some(ps), from := Some(seq(PS.Size(ps), _ => []))), [Pass], false)
    case Down(m) => Broadcast(s, m)
    case Up(source, m) => BebDeliver(s, source, m)
    case Crash(p) => OnCrash(s, p)
    case Other => Step(s, [], false)
  }

  /**
   * The header round trip: what a broadcast sends down is delivered, at a
   * process that has not seen its identifier, as the application's message
   * with the broadcaster's identifier.
   */
  lemma BroadcastDelivered(s: State, m: Message, t: State, source: Addr)
    requires !Broadcast(s, m).raised && t.lists
    requires PeekId(Broadcast(s, m).out[0].m).Some? ==> PeekId(Broadcast(s, m).out[0].m).value !in t.delivered
    ensures var sent := Broadcast(s, m).out[0].m;
      && PeekId(sent) == Some(MsgId(PS.GetSelfProcess(s.processes.value).value.number, s.seqNumber))
      && BebDeliver(t, source, sent).out[0] == Deliver(source, m)
  {
  }

  /**
   * Reliability through retransmission: a message delivered from a sender
   * believed correct is kept, and the sender's later crash notification
   * sends it again.
   */
  lemma KeptUntilCrash(s: State, source: Addr, m: Message)
    requires s.processes.Some? && PeekId(m).Some? && s.lists && PeekId(m).value !in s.delivered
    requires !BebDeliver(s, source, m).raised
    ensures var s1 := BebDeliver(s, source, m).s;
      var k := PS.GetProcessByAddr(s.processes.value, source).value.number;
      var c := OnCrash(s1, k);
      !c.raised ==> Send(m) in c.out
  {
    var s1 := BebDeliver(s, source, m).s;
    var k := PS.GetProcessByAddr(s.processes.value, source).value.number;
    var kept := s1.from.value[k];
    assert kept[|kept| - 1] == m;
    var c := OnCrash(s1, k);
    if !c.raised {
      assert c.out[|kept|] == Send(m);
    }
  }

  /**
   * Nothing is delivered twice: once an identifier is delivered, a later
   * copy changes no state and emits nothing, whatever happened in between
   * (no event but ChannelInit removes an identifier from `delivered`).
   */
  lemma DeliveredOnce(s: State, e: Event, source: Addr, m: Message)
    requires PeekId(m).Some? && s.lists && PeekId(m).value in s.delivered
    requires !e.ChannelInit?
    ensures var r := Handle(s, e);
      && s.delivered <= r.s.delivered && r.s.lists
      && BebDeliver(r.s, source, m) == Step(r.s, [], false)
  {
  }
}
