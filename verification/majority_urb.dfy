/**
 * Majority-ack uniform reliable broadcast: like the all-ack variant, but a
 * message is delivered once more than half of all processes have been seen
 * relaying it, whether or not they are believed correct. There is no crash
 * handler; crash notifications pass through.
 */
module MajorityAckURB {
  import opened Common
  import PS = ProcessSet
  import opened Stack
  import opened UrbEntry

  /** `lists` is false until the first ChannelInit creates `forward`, `delivered` and the ack table. */
  datatype State = State(
    lists: bool,
    processes: Option<PS.ProcessSet>,
    seqNumber: int,
    forward: set<MsgId>,
    delivered: set<MsgId>,
    ack: map<MsgId, Entry>)

  /** A Crash notification is one of the `Other` events here. */
  datatype Event =
    | ChannelInit
    | ProcessInit(ps: PS.ProcessSet)
    | Down(m: Message)
    | Up(source: Addr, m: Message)
    | Other

  datatype Step = Step(s: State, out: seq<Out>, raised: bool)

  function Init(): (s: State)
    ensures !s.lists && s.processes.None? && s.seqNumber == 0 && s.ack == map[]
  {
    State(false, None, 0, {}, {}, map[])
  }

  /** Number of set flags among the first `n`. */
  function NumAcks(acks: seq<bool>, n: nat): (c: nat)
    requires n <= |acks|
    ensures c <= n
  {
    CountTrue(acks[..n])
  }

  /**
   * What `canDeliver` finds apart from the `delivered` test: more than
   * `N / 2` of the first `N` flags are set, `N` the size of the process set.
   * `None` when there is no process set or the flag array is shorter than
   * `N`.
   */
  function Ready(s: State, id: MsgId): (r: Option<bool>)
    ensures r.None? <==> id in s.ack && (s.processes.None? || |s.ack[id].acks| < PS.Size(s.processes.value))
    ensures r == Some(true) <==>
      && id in s.ack && s.processes.Some? && PS.Size(s.processes.value) <= |s.ack[id].acks|
      && NumAcks(s.ack[id].acks, PS.Size(s.processes.value)) > PS.Size(s.processes.value) / 2
  {
    if id !in s.ack then Some(false)
    else if s.processes.None? then None
    else
      var n := PS.Size(s.processes.value);
      if |s.ack[id].acks| < n then None
      else Some(NumAcks(s.ack[id].acks, n) > n / 2)
  }

  /** `canDeliver(entry)`: a majority has acked and the identifier is undelivered. */
  predicate CanDeliver(s: State, id: MsgId)
  {
    Ready(s, id) == Some(true) && id !in s.delivered
  }

  function TryDeliver(s: State, order: seq<MsgId>): (r: Step)
  {
    if !s.lists then Step(s, [], true)
    else
      var sc := UrbEntry.TryDeliver(s.ack, id => Ready(s, id), s.processes, s.delivered, order);
      Step(s.(delivered := sc.delivered), sc.out, sc.raised)
  }

  /**
   * A scan changes nothing but `delivered` and delivers each identifier at
   * most once, only deliverable ones, and records them as delivered. When it
   * does not raise, no identifier it visited is left deliverable.
   */
  lemma TryDeliverOnceHere(s: State, order: seq<MsgId>)
    ensures var r := TryDeliver(s, order);
      && r.s == s.(delivered := r.s.delivered)
      && (forall i :: 0 <= i < |r.out| ==> r.out[i].Deliver?)
      && s.delivered + DeliveredIds(r.out) <= r.s.delivered
      && (forall i :: 0 <= i < |r.out| ==> CanDeliver(s, r.out[i].id) && r.out[i].m == s.ack[r.out[i].id].msg)
      && (forall i, j :: 0 <= i < j < |r.out| ==> r.out[i].id != r.out[j].id)
      && (!r.raised ==> forall id :: id in order ==> !CanDeliver(r.s, id))
  {
    if s.lists {
      var ready := id => Ready(s, id);
      UrbEntry.TryDeliverOnce(s.ack, ready, s.processes, s.delivered, order);
      UrbEntry.TryDeliverComplete(s.ack, ready, s.processes, s.delivered, order);
      var r := TryDeliver(s, order);
      forall id | id in order && !r.raised
        ensures !CanDeliver(r.s, id)
      {
        assert Ready(r.s, id) == Ready(s, id);
      }
    }
  }

  /** `addAck`, as in the all-ack variant: first sight creates `N` clear flags; the sender's flag is set. */
  function AddAck(s: State, source: Addr, m: Message, id: MsgId): (r: Step)
    requires s.processes.Some?
    ensures r.out == []
    ensures r.s.(ack := s.ack) == s
    ensures var p := PS.GetProcessByAddr(s.processes.value, source);
      && (p.None? || !s.lists ==> r == Step(s, [], true))
      && (p.Some? && s.lists ==>
           var e := if id in s.ack then s.ack[id] else Entry(m, id, seq(PS.Size(s.processes.value), _ => false));
           && r.s.ack.Keys == s.ack.Keys + {id}
           && (forall x :: x in s.ack && x != id ==> r.s.ack[x] == s.ack[x])
           && (r.raised <==> !(0 <= p.value.number < |e.acks|))
           && (r.raised ==> r.s.ack[id] == e)
           && (!r.raised ==> r.s.ack[id] == e.(acks := e.acks[p.value.number := true])))
  {
    var p := PS.GetProcessByAddr(s.processes.value, source);
    if p.None? || !s.lists then Step(s, [], true)
    else
      var e := if id in s.ack then s.ack[id] else Entry(m, id, seq(PS.Size(s.processes.value), _ => false));
      var pi := p.value.number;
      if 0 <= pi < |e.acks| then Step(s.(ack := s.ack[id := e.(acks := e.acks[pi := true])]), [], false)
      else Step(s.(ack := s.ack[id := e]), [], true)
  }

  /** `iurbBroadcast`: tag with (own number, sequence number), count up, add to `forward`, send down. */
  function Broadcast(s: State, m: Message): (r: Step)
    ensures r.s.ack == s.ack && r.s.delivered == s.delivered && r.s.processes == s.processes && r.s.lists == s.lists
    ensures var self := if s.processes.Some? && 0 <= s.processes.value.self < |s.processes.value.procs|
                        then PS.GetSelfProcess(s.processes.value) else None;
      && (self.None? ==> r == Step(s, [], true))
      && (self.Some? ==>
           var id := MsgId(self.value.number, s.seqNumber);
           && r.s.seqNumber == s.seqNumber + 1
           && (!s.lists ==> r.raised && r.out == [] && r.s.forward == s.forward)
           && (s.lists ==> !r.raised && r.s.forward == s.forward + {id} && r.out == [Send(Push(m, IdItem(id)))]))
  {
    if s.processes.None? || !(0 <= s.processes.value.self < |s.processes.value.procs|) then Step(s, [], true)
    else
      var self := PS.GetSelfProcess(s.processes.value);
      if self.None? then Step(s, [], true)
      else
        var id := MsgId(self.value.number, s.seqNumber);
        var s1 := s.(seqNumber := s.seqNumber + 1);
        if !s1.lists then Step(s1, [], true)
        else Step(s1.(forward := s1.forward + {id}), [Send(Push(m, IdItem(id)))], false)
  }

  /** `bebDeliver`: pop the identifier, record the ack, relay the first time the identifier is seen. */
  function BebDeliver(s: State, source: Addr, m: Message): (r: Step)
    ensures r.s.seqNumber == s.seqNumber && r.s.delivered == s.delivered && r.s.processes == s.processes
    ensures Pop(m).None? || !Pop(m).value.0.IdItem? || s.processes.None? ==> r == Step(s, [], true)
    ensures Pop(m).Some? && Pop(m).value.0.IdItem? && s.processes.Some? ==>
      var id := Pop(m).value.0.id;
      var a := AddAck(s, source, Pop(m).value.1, id);
      && r.s.ack == a.s.ack
      && (a.raised ==> r == a)
      && (!a.raised ==>
           && !r.raised
           && r.s.forward == s.forward + {id}
           && r.out == if id in s.forward then [] else [Send(m)])
  {
    match Pop(m)
    case None => Step(s, [], true)
    case Some((top, rest)) =>
      if !top.IdItem? || s.processes.None? then Step(s, [], true)
      else
        var a := AddAck(s, source, rest, top.id);
        if a.raised then a
        else if top.id in a.s.forward then a
        else Step(a.s.(forward := a.s.forward + {top.id}), [Send(m)], false)
  }

  function Handler(s: State, e: Event): (r: Step)
    ensures forall i :: 0 <= i < |r.out| ==> !r.out[i].Deliver?
    ensures !e.ChannelInit? ==> r.s.delivered == s.delivered
  {
    match e
    case ChannelInit => Step(s.(lists := true, forward := {}, delivered := {}, ack := map[]), [Pass], false)
    case ProcessInit(ps) => Step(s.(processes := Some(ps)), [Pass], false)
    case Down(m) => Broadcast(s, m)
    case Up(source, m) => BebDeliver(s, source, m)
    case Other => Step(s, [Pass], false)
  }

  /**
   * `handle`, followed by the delivery scan over the ack table in `order`.
   * Only identifiers acked by a majority are delivered, with the message of
   * their entry, and a step that does not raise leaves no identifier of
   * `order` deliverable.
   */
  function Handle(s: State, e: Event, order: seq<MsgId>): (r: Step)
    ensures forall i :: 0 <= i < |r.out| && r.out[i].Deliver? ==>
      && Ready(r.s, r.out[i].id) == Some(true)
      && r.out[i].m == r.s.ack[r.out[i].id].msg
    ensures !r.raised ==> forall id :: id in order ==> !CanDeliver(r.s, id)
  {
    var a := Handler(s, e);
    TryDeliverOnceHere(a.s, order);
    if a.raised then a
    else
      var t := TryDeliver(a.s, order);
      Step(t.s, a.out + t.out, t.raised)
  }

  /**
   * Delivery is at most once: every delivery of a step is of an identifier
   * that was deliverable, not delivered before, distinct from the step's
   * other deliveries, and recorded as delivered afterwards; unless the step
   * is a ChannelInit, `delivered` only grows.
   */
  lemma DeliverAtMostOnce(s: State, e: Event, order: seq<MsgId>)
    ensures var r := Handle(s, e, order);
      && (!e.ChannelInit? ==> s.delivered <= r.s.delivered)
      && (forall i :: 0 <= i < |r.out| && r.out[i].Deliver? ==>
            r.out[i].id in r.s.delivered && (!e.ChannelInit? ==> r.out[i].id !in s.delivered))
      && (forall i, j :: 0 <= i < j < |r.out| && r.out[i].Deliver? && r.out[j].Deliver? ==> r.out[i].id != r.out[j].id)
  {
    var a := Handler(s, e);
    if !a.raised {
      TryDeliverOnceHere(a.s, order);
      var t := TryDeliver(a.s, order);
      JoinScan(s.delivered, a.out, a.s.delivered, t.out, t.s.delivered, Handle(s, e, order), e.ChannelInit?);
    }
  }

  /** The deliveries of a step are the scan's, appended to a handler's outputs that deliver nothing. */
  lemma JoinScan(before: set<MsgId>, pre: seq<Out>, mid: set<MsgId>, scan: seq<Out>, after: set<MsgId>, r: Step, init: bool)
    requires forall i :: 0 <= i < |pre| ==> !pre[i].Deliver?
    requires r.out == pre + scan && r.s.delivered == after
    requires !init ==> mid == before
    requires mid + DeliveredIds(scan) <= after
    requires forall i :: 0 <= i < |scan| ==> scan[i].Deliver? && scan[i].id !in mid
    requires forall i, j :: 0 <= i < j < |scan| ==> scan[i].id != scan[j].id
    ensures !init ==> before <= after
    ensures forall i :: 0 <= i < |r.out| && r.out[i].Deliver? ==> r.out[i].id in after && (!init ==> r.out[i].id !in before)
    ensures forall i, j :: 0 <= i < j < |r.out| && r.out[i].Deliver? && r.out[j].Deliver? ==> r.out[i].id != r.out[j].id
  {
    forall i | 0 <= i < |r.out| && r.out[i].Deliver?
      ensures r.out[i].id in after && (!init ==> r.out[i].id !in before)
    {
      assert r.out[i] == scan[i - |pre|];
      assert r.out[i].id in DeliveredIds(scan);
    }
    forall i, j | 0 <= i < j < |r.out| && r.out[i].Deliver? && r.out[j].Deliver?
      ensures r.out[i].id != r.out[j].id
    {
      assert r.out[i] == scan[i - |pre|] && r.out[j] == scan[j - |pre|];
    }
  }

  /** Setting a flag never lowers the count. */
  lemma {:induction false} CountTrueSet(acks: seq<bool>, k: nat)
    requires k < |acks|
    ensures CountTrue(acks[k := true]) >= CountTrue(acks)
    decreases |acks|
  {
    var a := acks[k := true];
    if k < |acks| - 1 {
      assert a[..|a| - 1] == acks[..|acks| - 1][k := true];
      CountTrueSet(acks[..|acks| - 1], k);
    } else {
      assert a[..|a| - 1] == acks[..|acks| - 1];
    }
  }

  /**
   * Acks only accumulate: after an Up event that does not raise, the
   * identifier's entry has at least as many flags set among the first `N`,
   * so an identifier that was ready stays ready until it is delivered.
   */
  lemma ReadyStaysReady(s: State, source: Addr, m: Message, id: MsgId)
    requires Ready(s, id) == Some(true)
    requires !BebDeliver(s, source, m).raised
    ensures Ready(BebDeliver(s, source, m).s, id) == Some(true)
  {
    var r := BebDeliver(s, source, m);
    var n := PS.Size(s.processes.value);
    var top := Pop(m).value.0.id;
    if top == id {
      var p := PS.GetProcessByAddr(s.processes.value, source).value;
      var e := s.ack[id];
      assert r.s.ack[id] == e.(acks := e.acks[p.number := true]);
      if p.number < n {
        assert e.acks[p.number := true][..n] == e.acks[..n][p.number := true];
        CountTrueSet(e.acks[..n], p.number);
      } else {
        assert e.acks[p.number := true][..n] == e.acks[..n];
      }
    }
  }

  /** Number of positions set in both vectors. */
  function CountBoth(a: seq<bool>, b: seq<bool>): (c: nat)
    requires |a| == |b|
    ensures c <= |a|
  {
    if |a| == 0 then 0
    else CountBoth(a[..|a| - 1], b[..|b| - 1]) + (if a[|a| - 1] && b[|b| - 1] then 1 else 0)
  }

  lemma {:induction false} CountBothBound(a: seq<bool>, b: seq<bool>)
    requires |a| == |b|
    ensures CountBoth(a, b) >= CountTrue(a) + CountTrue(b) - |a|
    ensures CountBoth(a, b) > 0 ==> exists i :: 0 <= i < |a| && a[i] && b[i]
  {
    if |a| > 0 {
      var a', b' := a[..|a| - 1], b[..|b| - 1];
      CountBothBound(a', b');
      if CountBoth(a', b') > 0 {
        var i :| 0 <= i < |a'| && a'[i] && b'[i];
        assert a[i] && b[i];
      }
    }
  }

  /** Any two ack vectors over `N` processes with more than `N / 2` flags set share a process. */
  lemma MajoritiesIntersect(a: seq<bool>, b: seq<bool>, n: nat)
    requires n <= |a| && n <= |b|
    requires NumAcks(a, n) > n / 2 && NumAcks(b, n) > n / 2
    ensures exists i :: 0 <= i < n && a[i] && b[i]
  {
    CountBothBound(a[..n], b[..n]);
    var i :| 0 <= i < n && a[..n][i] && b[..n][i];
    assert a[i] && b[i];
  }
}
