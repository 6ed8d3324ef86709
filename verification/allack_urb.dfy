/**
 * All-ack uniform reliable broadcast. A broadcast tags the message with a
 * fresh identifier (local process number, sequence number); every process
 * relays a message the first time it sees it and records, per identifier,
 * which processes it has seen the message from. A message is delivered once
 * every process still believed correct has been seen relaying it. After
 * every event the session scans its ack table for deliverable messages.
 */
module AllAckURB {
  import opened Common
  import PS = ProcessSet
  import opened Stack
  import opened UrbEntry

  /**
   * `lists` is false until the first ChannelInit creates `received`,
   * `delivered` and the ack table; before that every use of them raises.
   */
  datatype State = State(
    lists: bool,
    processes: Option<PS.ProcessSet>,
    seqNumber: int,
    received: set<MsgId>,
    delivered: set<MsgId>,
    ack: map<MsgId, Entry>)

  datatype Event =
    | ChannelInit
    | ProcessInit(ps: PS.ProcessSet)
    | Down(m: Message)
    | Up(source: Addr, m: Message)
    | Crash(p: int)
    | Other

  datatype Step = Step(s: State, out: seq<Out>, raised: bool)

  /** Before any ChannelInit: no lists, no process set, sequence number 0. */
  function Init(): (s: State)
    ensures !s.lists && s.processes.None? && s.seqNumber == 0 && s.ack == map[]
  {
    State(false, None, 0, {}, {}, map[])
  }

  /** Every rank holds a process, and each one believed correct has its ack flag set. */
  predicate AllAcked(ps: PS.ProcessSet, acks: seq<bool>)
  {
    forall i :: 0 <= i < |ps.procs| ==>
      ps.procs[i].Some? && (ps.procs[i].value.correct ==> i < |acks| && acks[i])
  }

  /**
   * The loop of `canDeliver` from rank `i` on: `Some(false)` at the first
   * correct rank without an ack; `None` when it reaches an empty slot
   * (`isCorrect` on `null`) or a flag past the end of the array.
   */
  function AckedFrom(ps: PS.ProcessSet, acks: seq<bool>, i: nat): (r: Option<bool>)
    decreases |ps.procs| - i
  {
    if i >= |ps.procs| then Some(true)
    else if ps.procs[i].None? then None
    else if ps.procs[i].value.correct then
      if i >= |acks| then None
      else if !acks[i] then Some(false)
      else AckedFrom(ps, acks, i + 1)
    else AckedFrom(ps, acks, i + 1)
  }

  lemma {:induction false} AckedFromIff(ps: PS.ProcessSet, acks: seq<bool>, i: nat)
    ensures AckedFrom(ps, acks, i) == Some(true) <==>
      forall j :: i <= j < |ps.procs| ==>
        ps.procs[j].Some? && (ps.procs[j].value.correct ==> j < |acks| && acks[j])
    ensures PS.Full(ps) && |acks| >= |ps.procs| ==> AckedFrom(ps, acks, i).Some?
    decreases |ps.procs| - i
  {
    if i < |ps.procs| {
      AckedFromIff(ps, acks, i + 1);
    }
  }

  /**
   * What `canDeliver` finds apart from the `delivered` test: every process
   * believed correct has acked and the identifier has been received.
   * `None` when the loop raises.
   */
  function Ready(s: State, id: MsgId): (r: Option<bool>)
    ensures r == Some(true) <==>
      id in s.ack && s.processes.Some? && AllAcked(s.processes.value, s.ack[id].acks) && id in s.received
    ensures id in s.ack && s.processes.Some? && PS.Full(s.processes.value) && |s.ack[id].acks| >= PS.Size(s.processes.value) ==> r.Some?
  {
    if id !in s.ack then Some(false)
    else if s.processes.None? then None
    else
      AckedFromIff(s.processes.value, s.ack[id].acks, 0);
      match AckedFrom(s.processes.value, s.ack[id].acks, 0)
      case None => None
      case Some(false) => Some(false)
      case Some(true) => Some(id in s.received)
  }

  /**
   * `canDeliver(entry)`: every process believed correct has acked, the
   * identifier has been received and it has not been delivered.
   */
  predicate CanDeliver(s: State, id: MsgId)
  {
    Ready(s, id) == Some(true) && id !in s.delivered
  }

  /** `urbTryDeliver` over the session's state; raises before ChannelInit. */
  function TryDeliver(s: State, order: seq<MsgId>): (r: Step)
  {
    if !s.lists then Step(s, [], true)
    else
      var sc := UrbEntry.TryDeliver(s.ack, id => Ready(s, id), s.processes, s.delivered, order);
      Step(s.(delivered := sc.delivered), sc.out, sc.raised)
  }

  /**
   * A scan changes nothing but `delivered` and delivers each identifier at
   * most once, only deliverable ones, and records them as delivered. When it
   * does not raise, no identifier it visited is left deliverable.
   */
  lemma TryDeliverOnceHere(s: State, order: seq<MsgId>)
    ensures var r := TryDeliver(s, order);
      && r.s == s.(delivered := r.s.delivered)
      && (forall i :: 0 <= i < |r.out| ==> r.out[i].Deliver?)
      && s.delivered + DeliveredIds(r.out) <= r.s.delivered
      && (forall i :: 0 <= i < |r.out| ==> CanDeliver(s, r.out[i].id) && r.out[i].m == s.ack[r.out[i].id].msg)
      && (forall i, j :: 0 <= i < j < |r.out| ==> r.out[i].id != r.out[j].id)
      && (!r.raised ==> forall id :: id in order ==> !CanDeliver(r.s, id))
  {
    if s.lists {
      var ready := id => Ready(s, id);
      UrbEntry.TryDeliverOnce(s.ack, ready, s.processes, s.delivered, order);
      UrbEntry.TryDeliverComplete(s.ack, ready, s.processes, s.delivered, order);
      var r := TryDeliver(s, order);
      forall id | id in order && !r.raised
        ensures !CanDeliver(r.s, id)
      {
        assert Ready(r.s, id) == Ready(s, id);
      }
    }
  }

  /** `addAck`: `None` when no process holds `source` (`null` dereference). */
  function AddAck(s: State, source: Addr, m: Message, id: MsgId): (r: Step)
    requires s.processes.Some?
    ensures r.out == []
    ensures r.s.(ack := s.ack) == s
    ensures var p := PS.GetProcessByAddr(s.processes.value, source);
      && (p.None? ==> r == Step(s, [], true))
      && (p.Some? && !s.lists ==> r == Step(s, [], true))
      && (p.Some? && s.lists ==>
           var e := if id in s.ack then s.ack[id] else Entry(m, id, seq(PS.Size(s.processes.value), _ => false));
           && r.s.ack.Keys == s.ack.Keys + {id}
           && (forall x :: x in s.ack && x != id ==> r.s.ack[x] == s.ack[x])
           && (r.raised <==> !(0 <= p.value.number < |e.acks|))
           && (r.raised ==> r.s.ack[id] == e)
           && (!r.raised ==> r.s.ack[id] == e.(acks := e.acks[p.value.number := true])))
  {
    var p := PS.GetProcessByAddr(s.processes.value, source);
    if p.None? || !s.lists then Step(s, [], true)
    else
      var e := if id in s.ack then s.ack[id] else Entry(m, id, seq(PS.Size(s.processes.value), _ => false));
      var pi := p.value.number;
      if 0 <= pi < |e.acks| then Step(s.(ack := s.ack[id := e.(acks := e.acks[pi := true])]), [], false)
      else Step(s.(ack := s.ack[id := e]), [], true)
  }

  /** `urbBroadcast`: tag with (own number, sequence number), count up, record as received, send down. */
  function Broadcast(s: State, m: Message): (r: Step)
    ensures r.s.ack == s.ack && r.s.delivered == s.delivered && r.s.processes == s.processes && r.s.lists == s.lists
    ensures var self := if s.processes.Some? && 0 <= s.processes.value.self < |s.processes.value.procs|
                        then PS.GetSelfProcess(s.processes.value) else None;
      && (self.None? ==> r == Step(s, [], true))
      && (self.Some? ==>
           var id := MsgId(self.value.number, s.seqNumber);
           && r.s.seqNumber == s.seqNumber + 1
           && (!s.lists ==> r.raised && r.out == [] && r.s.received == s.received)
           && (s.lists ==> !r.raised && r.s.received == s.received + {id} && r.out == [Send(Push(m, IdItem(id)))]))
  {
    if s.processes.None? || !(0 <= s.processes.value.self < |s.processes.value.procs|) then Step(s, [], true)
    else
      var self := PS.GetSelfProcess(s.processes.value);
      if self.None? then Step(s, [], true)
      else
        var id := MsgId(self.value.number, s.seqNumber);
        var s1 := s.(seqNumber := s.seqNumber + 1);
        if !s1.lists then Step(s1, [], true)
        else Step(s1.(received := s1.received + {id}), [Send(Push(m, IdItem(id)))], false)
  }

  /**
   * The header round trip: a process receiving what a broadcast sent down
   * pops the broadcast's identifier and keeps the application's message as
   * the entry's message.
   */
  lemma BroadcastFraming(s: State, m: Message)
    requires !Broadcast(s, m).raised
    ensures var r := Broadcast(s, m);
      && |r.out| == 1 && r.out[0].Send?
      && Pop(r.out[0].m) == Some((IdItem(MsgId(PS.GetSelfProcess(s.processes.value).value.number, s.seqNumber)), m))
  {
    var self := PS.GetSelfProcess(s.processes.value).value;
    PopPush(m, IdItem(MsgId(self.number, s.seqNumber)));
  }

  /**
   * `bebDeliver`: pop the identifier, record the sender's ack, and relay the
   * original message the first time the identifier is seen.
   */
  function BebDeliver(s: State, source: Addr, m: Message): (r: Step)
    ensures r.s.seqNumber == s.seqNumber && r.s.delivered == s.delivered && r.s.processes == s.processes
    ensures Pop(m).None? || !Pop(m).value.0.IdItem? || s.processes.None? ==> r == Step(s, [], true)
    ensures Pop(m).Some? && Pop(m).value.0.IdItem? && s.processes.Some? ==>
      var id := Pop(m).value.0.id;
      var a := AddAck(s, source, Pop(m).value.1, id);
      && r.s.ack == a.s.ack
      && (a.raised ==> r == a)
      && (!a.raised ==>
           && !r.raised
           && r.s.received == s.received + {id}
           && r.out == if id in s.received then [] else [Send(m)])
  {
    match Pop(m)
    case None => Step(s, [], true)
    case Some((top, rest)) =>
      if !top.IdItem? || s.processes.None? then Step(s, [], true)
      else
        var a := AddAck(s, source, rest, top.id);
        if a.raised then a
        else if top.id in a.s.received then a
        else Step(a.s.(received := a.s.received + {top.id}), [Send(m)], false)
  }

  /** `handleCrash`: the process of that rank is no longer believed correct. */
  function OnCrash(s: State, p: int): (r: Step)
    ensures r.out == [] && r.s.(processes := s.processes) == s
    ensures r.raised <==> s.processes.None? || PS.MarkCrashed(s.processes.value, p).None?
    ensures !r.raised ==> r.s.processes == PS.MarkCrashed(s.processes.value, p)
  {
    if s.processes.None? then Step(s, [], true)
    else
      match PS.MarkCrashed(s.processes.value, p)
      case None => Step(s, [], true)
      case Some(ps) => Step(s.(processes := Some(ps)), [], false)
  }

  /** Runs the delivery scan after a handler unless the handler raised. */
  function Then(a: Step, order: seq<MsgId>): (r: Step)
    ensures a.raised ==> r == a
    ensures !a.raised ==>
      r.out == a.out + TryDeliver(a.s, order).out && r.s == TryDeliver(a.s, order).s && r.raised == TryDeliver(a.s, order).raised
  {
    if a.raised then a
    else
      var t := TryDeliver(a.s, order);
      Step(t.s, a.out + t.out, t.raised)
  }

  /**
   * `handle`, followed by the delivery scan over the ack table in `order`.
   * Only identifiers acked by every process believed correct are delivered,
   * with the message of their entry, and a step that does not raise leaves
   * no identifier of `order` deliverable.
   */
  function Handle(s: State, e: Event, order: seq<MsgId>): (r: Step)
    ensures forall i :: 0 <= i < |r.out| && r.out[i].Deliver? ==>
      && Ready(r.s, r.out[i].id) == Some(true)
      && r.out[i].m == r.s.ack[r.out[i].id].msg
    ensures !r.raised ==> forall id :: id in order ==> !CanDeliver(r.s, id)
  {
    var a := Handler(s, e);
    TryDeliverOnceHere(a.s, order);
    Then(a, order)
  }

  /** The handler part of `handle`, before the delivery scan. */
  function Handler(s: State, e: Event): (r: Step)
    ensures forall i :: 0 <= i < |r.out| ==> !r.out[i].Deliver?
    ensures !e.ChannelInit? ==> r.s.delivered == s.delivered
  {
    match e
    case ChannelInit => Step(s.(lists := true, received := {}, delivered := {}, ack := map[]), [Pass], false)
    case ProcessInit(ps) => Step(s.(processes := Some(ps)), [Pass], false)
    case Down(m) => Broadcast(s, m)
    case Up(source, m) => BebDeliver(s, source, m)
    case Crash(p) => OnCrash(s, p)
    case Other => Step(s, [Pass], false)
  }

  /** A handler's output followed by a scan's delivers each identifier at most once, and only new ones. */
  lemma ThenOnce(a: Step, order: seq<MsgId>)
    requires forall i :: 0 <= i < |a.out| ==> !a.out[i].Deliver?
    ensures var r := Then(a, order);
      && a.s.delivered <= r.s.delivered
      && (forall i :: 0 <= i < |r.out| && r.out[i].Deliver? ==> r.out[i].id in r.s.delivered && r.out[i].id !in a.s.delivered)
      && (forall i, j :: 0 <= i < j < |r.out| && r.out[i].Deliver? && r.out[j].Deliver? ==> r.out[i].id != r.out[j].id)
  {
    if !a.raised {
      TryDeliverOnceHere(a.s, order);
      var t := TryDeliver(a.s, order);
      var r := Then(a, order);
      forall i | 0 <= i < |r.out| && r.out[i].Deliver?
        ensures r.out[i].id in r.s.delivered && r.out[i].id !in a.s.delivered
      {
        assert r.out[i] == t.out[i - |a.out|];
        assert r.out[i].id in DeliveredIds(t.out);
      }
      forall i, j | 0 <= i < j < |r.out| && r.out[i].Deliver? && r.out[j].Deliver?
        ensures r.out[i].id != r.out[j].id
      {
        assert r.out[i] == t.out[i - |a.out|] && r.out[j] == t.out[j - |a.out|];
      }
    }
  }

  /**
   * Delivery is at most once: every delivery of a step is of an identifier
   * not delivered before it, distinct from the step's other deliveries, and
   * recorded as delivered afterwards; unless the step is a ChannelInit, no
   * identifier is ever removed from `delivered`.
   */
  lemma DeliverAtMostOnce(s: State, e: Event, order: seq<MsgId>)
    ensures var r := Handle(s, e, order);
      && (!e.ChannelInit? ==> s.delivered <= r.s.delivered)
      && (forall i :: 0 <= i < |r.out| && r.out[i].Deliver? ==>
            r.out[i].id in r.s.delivered && (!e.ChannelInit? ==> r.out[i].id !in s.delivered))
      && (forall i, j :: 0 <= i < j < |r.out| && r.out[i].Deliver? && r.out[j].Deliver? ==> r.out[i].id != r.out[j].id)
  {
    ThenOnce(Handler(s, e), order);
  }

  /**
   * A message that has arrived is always acked: after an Up event that does
   * not raise, the sender's flag is set in the entry of the identifier, and
   * flags already set stay set.
   */
  lemma UpRecordsAck(s: State, source: Addr, m: Message, order: seq<MsgId>)
    requires Pop(m).Some? && Pop(m).value.0.IdItem? && s.processes.Some?
    requires !BebDeliver(s, source, m).raised
    ensures var id := Pop(m).value.0.id;
      var p := PS.GetProcessByAddr(s.processes.value, source);
      var r := BebDeliver(s, source, m);
      && p.Some? && id in r.s.ack && 0 <= p.value.number < |r.s.ack[id].acks| && r.s.ack[id].acks[p.value.number]
      && id in r.s.received
      && (forall x :: x in s.ack ==>
            && x in r.s.ack && |r.s.ack[x].acks| == |s.ack[x].acks|
            && forall i :: 0 <= i < |s.ack[x].acks| && s.ack[x].acks[i] ==> r.s.ack[x].acks[i])
  {
  }

  /** Crashes only remove processes from the correct set, so a deliverable message stays deliverable. */
  lemma CrashKeepsDeliverable(s: State, id: MsgId, p: int)
    requires CanDeliver(s, id)
    requires !OnCrash(s, p).raised
    ensures CanDeliver(OnCrash(s, p).s, id)
  {
    var ps := s.processes.value;
    var ps' := OnCrash(s, p).s.processes.value;
    forall i | 0 <= i < |ps'.procs|
      ensures ps'.procs[i].Some? && (ps'.procs[i].value.correct ==> i < |s.ack[id].acks| && s.ack[id].acks[i])
    {
      assert PS.IsCorrect(ps', i) ==> PS.IsCorrect(ps, i);
    }
  }
}
