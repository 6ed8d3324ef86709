/**
 * View synchrony built on terminating reliable broadcast (TRB). Views
 * arrive from the membership; the first is installed at once, later ones
 * queue. To change view the process blocks the application, then runs one
 * TRB per member of the current view, in rank order, in which each member
 * broadcasts the set of messages it delivered in the view; every process
 * delivers what it missed, then installs the next view and unblocks.
 * Messages are delivered at most once, keyed by sender address and
 * identifier.
 */
module ViewSync {
  import opened Common
  import PS = ProcessSet
  import opened Stack
  import opened MembershipView
  import opened ViewSyncMsg

  /**
   * `pending` is the queue of views to install, head first; `delivered`
   * holds one record per key, the first one added; `current` and `next`
   * are `None` while `null`; `blocked` starts true; `factory` is false
   * while the message factory is `null`, until ChannelInit.
   */
  datatype State = State(
    pending: seq<View>,
    delivered: map<Key, Msg>,
    current: Option<View>,
    next: Option<View>,
    flushing: bool,
    blocked: bool,
    trbDone: int,
    msgId: int,
    factory: bool)

  datatype Event =
    | ChannelInit
    | ViewEvent(v: Option<View>)
    | BlockOk
    | TrbDeliver(del: Option<seq<Msg>>)
    | Broadcast(name: string, m: Message)
    | RcoDeliver(source: Addr, name: string, m: Message)
    | Other

  /**
   * `Pass`: the event goes on; `Release`/`Block`: the application is
   * released/blocked; `Install(v)`: a ViewEvent, up; `Send(m)`: the
   * broadcast, down; `Deliver(id, src, name, body)`: a delivery, up, of
   * the message with key `id`; `TrbSend(p, proposed)`: the TRB for the member
   * at `p`, proposing `proposed` (its own delivered set at the member itself,
   * the empty set elsewhere).
   */
  datatype Out =
    | Pass
    | Release
    | Block
    | Install(v: Option<View>)
    | Send(m: Message)
    | Deliver(id: Key, src: Option<Addr>, name: string, body: Message)
    | TrbSend(p: Addr, proposed: map<Key, Msg>)

  datatype Step = Step(s: State, out: seq<Out>, raised: bool)

  function Init(): (s: State)
    ensures s.pending == [] && s.delivered == map[] && s.current.None? && s.next.None?
    ensures !s.flushing && s.blocked && s.trbDone == 0 && s.msgId == 0 && !s.factory
  {
    State([], map[], None, None, false, true, 0, 0, false)
  }

  /** `moreViews`: unless a flush is under way, start one for the view at the head of the queue. */
  function MoreViews(s: State): (r: Step)
    ensures !r.raised
    ensures r.out != [] <==> !s.flushing && s.pending != []
    ensures r.out == [] ==> r.s == s
    ensures r.out != [] ==>
      && r.out == [Block]
      && r.s == s.(next := Some(s.pending[0]), pending := s.pending[1..], flushing := true)
  {
    if s.flushing || s.pending == [] then Step(s, [], false)
    else Step(s.(next := Some(s.pending[0]), pending := s.pending[1..], flushing := true), [Block], false)
  }

  /** Two steps in sequence; a raise in the first skips the second. */
  function Then(a: Step, b: State -> Step): (r: Step)
    ensures a.raised ==> r == a
    ensures !a.raised ==> r == Step(b(a.s).s, a.out + b(a.s).out, b(a.s).raised)
  {
    if a.raised then a else var c := b(a.s); Step(c.s, a.out + c.out, c.raised)
  }

  /** `handleView`: view 0 is installed at once and releases the application; any other view queues. */
  function OnView(s: State, v: Option<View>): (r: Step)
    ensures v.None? ==> r == Step(s, [], true)
    ensures v.Some? && v.value.id == 0 ==>
      r == Then(Step(s.(current := v, blocked := false), [Pass, Release], false), MoreViews)
    ensures v.Some? && v.value.id != 0 ==>
      r == MoreViews(s.(pending := s.pending + [v.value]))
  {
    match v
    case None => Step(s, [], true)
    case Some(w) =>
      if w.id == 0 then Then(Step(s.(current := v, blocked := false), [Pass, Release], false), MoreViews)
      else MoreViews(s.(pending := s.pending + [w]))
  }

  /** The headers of a broadcast: the identifier, then the view identifier on top. */
  function Frame(m: Message, msgId: int, vid: int): Message
  {
    Push(Push(m, IntItem(msgId)), IntItem(vid))
  }

  /** The receiving side: the view identifier, the message identifier and the message below. */
  function ParseFrame(m: Message): (r: Option<(int, int, Message)>)
    ensures r.Some? ==> Frame(r.value.2, r.value.1, r.value.0) == m
  {
    match PopInt(m)
    case None => None
    case Some((vid, m1)) =>
      match PopInt(m1)
      case None => None
      case Some((mid, m2)) => Some((vid, mid, m2))
  }

  lemma FrameRoundTrip(m: Message, msgId: int, vid: int)
    ensures ParseFrame(Frame(m, msgId, vid)) == Some((vid, msgId, m))
  {
    PopIntPush(Push(m, IntItem(msgId)), vid);
    PopIntPush(m, msgId);
  }

  /** `delivered.add(m)`: a record whose key is already present leaves the set as it is. */
  function Record(d: map<Key, Msg>, m: Msg): (r: map<Key, Msg>)
    requires m.src.Some?
    ensures KeyOf(m) in r && r.Keys == d.Keys + {KeyOf(m)}
    ensures KeyOf(m) in d ==> r == d
    ensures KeyOf(m) !in d ==> r == d[KeyOf(m) := m]
  {
    if KeyOf(m) in d then d else d[KeyOf(m) := m]
  }

  /**
   * `handleCSVSBroadcast`: ignored while blocked or without a view;
   * otherwise the next identifier is taken, the message recorded, delivered
   * locally and sent with its headers. A view without a local process
   * raises after the identifier is taken.
   */
  function OnBroadcast(s: State, name: string, m: Message): (r: Step)
    ensures s.blocked || s.current.None? ==> r == Step(s, [], false)
    ensures r.raised ==> r.s == s.(msgId := s.msgId + 1) && r.out == []
    ensures !r.raised && r.out != [] ==>
      && s.current.Some? && r.s.msgId == s.msgId + 1 && |r.out| == 2
      && r.out[0].Deliver? && r.out[0].id in r.s.delivered && r.out[0].name == name && r.out[0].body == m
      && r.out[1] == Send(Frame(m, s.msgId + 1, s.current.value.id))
      && s.delivered.Keys <= r.s.delivered.Keys
  {
    if s.blocked || s.current.None? then Step(s, [], false)
    else
      var s1 := s.(msgId := s.msgId + 1);
      var memb := s.current.value.memb;
      if !(0 <= memb.self < PS.Size(memb)) || PS.GetSelfProcess(memb).None? then Step(s1, [], true)
      else
        var me := PS.GetSelfProcess(memb).value;
        var msg := Msg(Some(me), s1.msgId, name, m);
        Step(s1.(delivered := Record(s.delivered, msg)),
             [Deliver(KeyOf(msg), Some(me.addr), name, m), Send(Frame(m, s1.msgId, s.current.value.id))], false)
  }

  /**
   * `handleRCODeliver`: a message of another view, or one already
   * delivered, is dropped; otherwise it is recorded and delivered. A sender
   * outside the view raises.
   */
  function OnRcoDeliver(s: State, source: Addr, name: string, m: Message): (r: Step)
    ensures r.s.(delivered := s.delivered) == s && s.delivered.Keys <= r.s.delivered.Keys
    ensures s.current.Some? && ParseFrame(m).Some? && ParseFrame(m).value.0 != s.current.value.id ==> r == Step(s, [], false)
    ensures forall i :: 0 <= i < |r.out| && r.out[i].Deliver? ==>
      && i == 0 && r.out[i].id !in s.delivered && r.out[i].id in r.s.delivered
      && s.current.Some? && ParseFrame(m).Some? && ParseFrame(m).value.0 == s.current.value.id
      && r.out[i].src == Some(source) && r.out[i].body == ParseFrame(m).value.2
  {
    if s.current.None? then Step(s, [], true)
    else
      match ParseFrame(m)
      case None => Step(s, [], true)
      case Some((vid, mid, body)) =>
        if s.current.value.id != vid then Step(s, [], false)
        else
          var src := PS.GetProcessByAddr(s.current.value.memb, source);
          if src.None? then Step(s, [], true)
          else
            var msg := Msg(src, mid, name, body);
            if KeyOf(msg) in s.delivered then Step(s, [], false)
            else Step(s.(delivered := s.delivered[KeyOf(msg) := msg]), [Deliver(KeyOf(msg), Some(source), name, body)], false)
  }

  /** The TRB for rank `rank` of the current view: the member's own set at the member itself, the empty set elsewhere. */
  function TrbFor(s: State, rank: int): (r: Step)
    ensures !r.raised ==> r.s == s && |r.out| == 1 && r.out[0].TrbSend?
    ensures r.raised ==> r == Step(s, [], true)
  {
    if s.current.None? || !(0 <= rank < PS.Size(s.current.value.memb)) || s.current.value.memb.procs[rank].None? then
      Step(s, [], true)
    else
      var p := s.current.value.memb.procs[rank].value;
      Step(s, [TrbSend(p.addr, if p.isSelf then s.delivered else map[])], false)
  }

  /** `handleBlockOkEvent`: block, and start the TRB for rank 0. */
  function OnBlockOk(s: State): (r: Step)
    ensures r.s.blocked && r.s.trbDone == 0
  {
    TrbFor(s.(blocked := true, trbDone := 0), 0)
  }

  /** The outcome of delivering what a TRB carried. */
  datatype Redelivery = Redelivery(delivered: map<Key, Msg>, out: seq<Out>, raised: bool)

  /** Deliver, in the set's iteration order, every record not yet delivered; a record without a sender raises. */
  function RedeliverAll(d: map<Key, Msg>, del: seq<Msg>): (r: Redelivery)
    ensures d.Keys <= r.delivered.Keys
    ensures forall k :: k in d ==> r.delivered[k] == d[k]
    ensures forall i :: 0 <= i < |r.out| ==> r.out[i].Deliver?
    decreases |del|
  {
    if del == [] then Redelivery(d, [], false)
    else
      var m := del[0];
      if m.src.None? then Redelivery(d, [], true)
      else if KeyOf(m) in d then RedeliverAll(d, del[1..])
      else
        var rest := RedeliverAll(d[KeyOf(m) := m], del[1..]);
        Redelivery(rest.delivered, [Deliver(KeyOf(m), None, m.eventName, m.data)] + rest.out, rest.raised)
  }

  /** `ready`: install the next view, unblock, release, and try the next queued view. */
  function Ready(s: State): (r: Step)
    ensures !s.blocked ==> r == Step(s, [], false)
    ensures s.blocked ==>
      r == Then(Step(s.(current := s.next, flushing := false, blocked := false), [Install(s.next), Release], false), MoreViews)
    ensures forall i :: 0 <= i < |r.out| ==> !r.out[i].TrbSend?
    ensures forall i :: 0 <= i < |r.out| && r.out[i].Install? ==>
      r.out[i].v == s.next && s.blocked && !r.s.blocked && r.s.current == s.next
  {
    if !s.blocked then Step(s, [], false)
    else Then(Step(s.(current := s.next, flushing := false, blocked := false), [Install(s.next), Release], false), MoreViews)
  }

  /**
   * The rest of `handleTRBEvent` once a TRB's records are delivered: the
   * TRB for the next rank, which asks the message factory for a message
   * and so raises before ChannelInit has set it, or, after the last rank,
   * `ready`. Without a current view it raises.
   */
  function FlushNext(s: State): (r: Step)
    ensures r.s.trbDone == s.trbDone && r.s.delivered == s.delivered && r.s.factory == s.factory
    ensures s.current.None? ==> r.raised && r.out == []
    ensures forall i :: 0 <= i < |r.out| && r.out[i].Install? ==>
      && r.out[i].v == s.next && s.blocked && !r.s.blocked && r.s.current == s.next
      && s.current.Some? && s.trbDone >= PS.Size(s.current.value.memb)
    ensures forall i :: 0 <= i < |r.out| && r.out[i].TrbSend? ==> r.s == s && s.factory
    ensures !s.factory && s.current.Some? && s.trbDone < PS.Size(s.current.value.memb) ==> r.raised && r.out == []
  {
    if s.current.None? then Step(s, [], true)
    else if s.trbDone < PS.Size(s.current.value.memb) then
      var t := TrbFor(s, s.trbDone);
      if t.raised || !s.factory then Step(s, [], true) else t
    else Ready(s)
  }

  /**
   * `handleTRBEvent`: count the TRB, deliver what it carried, then start
   * the TRB for the next rank or, after the last one, get ready. Starting a
   * TRB asks the message factory for a message, which raises before
   * ChannelInit has set it.
   */
  function OnTrb(s: State, del: Option<seq<Msg>>): (r: Step)
    ensures r.s.trbDone == s.trbDone + 1 && s.delivered.Keys <= r.s.delivered.Keys
    ensures forall i :: 0 <= i < |r.out| && r.out[i].Install? ==>
      && r.out[i].v == s.next && s.blocked && !r.s.blocked && r.s.current == s.next
      && s.current.Some? && s.trbDone + 1 >= PS.Size(s.current.value.memb)
    ensures forall i :: 0 <= i < |r.out| && r.out[i].TrbSend? ==> r.s.blocked == s.blocked
    ensures r.s.factory == s.factory
    ensures !s.factory ==> forall i :: 0 <= i < |r.out| ==> !r.out[i].TrbSend?
    ensures !s.factory && s.current.Some? && s.trbDone + 1 < PS.Size(s.current.value.memb) ==> r.raised
  {
    var s1 := s.(trbDone := s.trbDone + 1);
    var rd := if del.Some? then RedeliverAll(s1.delivered, del.value) else Redelivery(s1.delivered, [], false);
    var s2 := s1.(delivered := rd.delivered);
    if rd.raised then Step(s2, rd.out, true)
    else var t := FlushNext(s2); Step(t.s, rd.out + t.out, t.raised)
  }

  /**
   * `handle`: a new view is installed only at the end of a flush, which
   * leaves the application unblocked; a TRB is started only while blocked;
   * broadcasts and network deliveries leave the views and the flush alone.
   */
  function Handle(s: State, e: Event): (r: Step)
    ensures forall i :: 0 <= i < |r.out| && r.out[i].Install? ==> e.TrbDeliver? && r.s.current == s.next && !r.s.blocked
    ensures forall i :: 0 <= i < |r.out| && r.out[i].TrbSend? ==>
      (e.BlockOk? && r.s.blocked) || (e.TrbDeliver? && r.s.blocked == s.blocked)
    ensures e.Broadcast? || e.RcoDeliver? ==>
      && r.s.current == s.current && r.s.next == s.next && r.s.pending == s.pending
      && r.s.blocked == s.blocked && r.s.flushing == s.flushing && r.s.trbDone == s.trbDone
    ensures r.s.factory == (s.factory || e.ChannelInit?)
  {
    match e
    case ChannelInit => Step(s.(factory := true), [Pass], false)
    case ViewEvent(v) => OnView(s, v)
    case BlockOk => OnBlockOk(s)
    case TrbDeliver(del) => OnTrb(s, del)
    case Broadcast(name, m) => OnBroadcast(s, name, m)
    case RcoDeliver(source, name, m) => OnRcoDeliver(s, source, name, m)
    case Other => Step(s, [Pass], false)
  }

  /** The keys of the deliveries among the outputs, in order. */
  function DeliveredKeys(out: seq<Out>): (ks: seq<Key>)
    ensures |ks| <= |out|
  {
    if out == [] then []
    else (if out[0].Deliver? then [out[0].id] else []) + DeliveredKeys(out[1..])
  }

  lemma {:induction false} DeliveredKeysAppend(a: seq<Out>, b: seq<Out>)
    ensures DeliveredKeys(a + b) == DeliveredKeys(a) + DeliveredKeys(b)
    decreases |a|
  {
    if a != [] {
      assert (a + b)[1..] == a[1..] + b;
      DeliveredKeysAppend(a[1..], b);
    } else {
      assert a + b == b;
    }
  }

  /** Outputs that deliver nothing. */
  predicate NoDelivery(out: seq<Out>)
  {
    forall i :: 0 <= i < |out| ==> !out[i].Deliver?
  }

  lemma {:induction false} NoDeliveryKeys(out: seq<Out>)
    requires NoDelivery(out)
    ensures DeliveredKeys(out) == []
    decreases |out|
  {
    if out != [] {
      NoDeliveryKeys(out[1..]);
    }
  }

  /**
   * The TRB deliveries are exactly the records new to the set, each
   * delivered once: their keys are distinct, were not in the set before and
   * are in it after, and without a raise the set grows by exactly them.
   */
  lemma {:induction false} RedeliverOnce(d: map<Key, Msg>, del: seq<Msg>)
    ensures var r := RedeliverAll(d, del);
      var ks := DeliveredKeys(r.out);
      && (forall i :: 0 <= i < |ks| ==> ks[i] !in d && ks[i] in r.delivered)
      && (forall i, j :: 0 <= i < j < |ks| ==> ks[i] != ks[j])
      && (!r.raised ==> forall k :: k in r.delivered && k !in d ==> k in ks)
    decreases |del|
  {
    if del != [] {
      var m := del[0];
      if m.src.Some? {
        if KeyOf(m) in d {
          RedeliverOnce(d, del[1..]);
        } else {
          var d1 := d[KeyOf(m) := m];
          RedeliverOnce(d1, del[1..]);
          var rest := RedeliverAll(d1, del[1..]);
          var o := [Deliver(KeyOf(m), None, m.eventName, m.data)];
          DeliveredKeysAppend(o, rest.out);
          assert DeliveredKeys(o) == [KeyOf(m)] by {
            assert o[1..] == [];
          }
          RedeliverStep(d, KeyOf(m), m, rest, DeliveredKeys(rest.out), RedeliverAll(d, del), DeliveredKeys(o + rest.out));
        }
      }
    }
  }

  /** Delivering a new key in front of a redelivery that started with it recorded keeps the keys fresh and distinct. */
  lemma RedeliverStep(d: map<Key, Msg>, key: Key, m: Msg, rest: Redelivery, rks: seq<Key>, r: Redelivery, ks: seq<Key>)
    requires key !in d && key in rest.delivered
    requires forall i :: 0 <= i < |rks| ==> rks[i] !in d[key := m] && rks[i] in rest.delivered
    requires forall i, j :: 0 <= i < j < |rks| ==> rks[i] != rks[j]
    requires !rest.raised ==> forall k :: k in rest.delivered && k !in d[key := m] ==> k in rks
    requires r.delivered == rest.delivered && r.raised == rest.raised && ks == [key] + rks
    ensures forall i :: 0 <= i < |ks| ==> ks[i] !in d && ks[i] in r.delivered
    ensures forall i, j :: 0 <= i < j < |ks| ==> ks[i] != ks[j]
    ensures !r.raised ==> forall k :: k in r.delivered && k !in d ==> k in ks
  {
    assert forall i :: 1 <= i < |ks| ==> ks[i] == rks[i - 1];
  }

  /** Every record in the set from address `a` carries an identifier already issued here. */
  predicate OwnIdsIssued(s: State, a: Addr)
  {
    forall k :: k in s.delivered && k.addr == a ==> k.id <= s.msgId
  }

  /**
   * A local broadcast delivers its message under a fresh key: when every
   * record from the local address carries an identifier already issued, the
   * new one is not in the set, is recorded, and the property still holds.
   */
  lemma BroadcastFresh(s: State, name: string, m: Message)
    requires s.current.Some? && 0 <= s.current.value.memb.self < PS.Size(s.current.value.memb)
    requires PS.GetSelfProcess(s.current.value.memb).Some?
    requires OwnIdsIssued(s, PS.GetSelfProcess(s.current.value.memb).value.addr)
    ensures var r := OnBroadcast(s, name, m);
      var a := PS.GetSelfProcess(s.current.value.memb).value.addr;
      !s.blocked ==>
        && !r.raised && r.s.msgId == s.msgId + 1
        && r.out == [Deliver(Key(a, s.msgId + 1), Some(a), name, m), Send(Frame(m, s.msgId + 1, s.current.value.id))]
        && Key(a, s.msgId + 1) !in s.delivered && r.s.delivered == s.delivered[Key(a, s.msgId + 1) := Msg(Some(PS.GetSelfProcess(s.current.value.memb).value), s.msgId + 1, name, m)]
        && OwnIdsIssued(r.s, a)
  {
  }

  /** A broadcast is dropped while the application is blocked or before the first view, and takes no identifier. */
  lemma BroadcastDroppedWhenBlocked(s: State, name: string, m: Message)
    requires s.blocked || s.current.None?
    ensures OnBroadcast(s, name, m) == Step(s, [], false)
  {
  }

  /** The key-set of the delivered records grows, and only by the keys a step delivers. */
  predicate FreshDeliveries(s: State, r: Step)
  {
    var ks := DeliveredKeys(r.out);
    && s.delivered.Keys <= r.s.delivered.Keys
    && (forall i :: 0 <= i < |ks| ==> ks[i] !in s.delivered && ks[i] in r.s.delivered)
    && (forall i, j :: 0 <= i < j < |ks| ==> ks[i] != ks[j])
  }

  /** The flush delivers each record it carries at most once, and only records not yet delivered. */
  lemma TrbDeliversOnce(s: State, del: Option<seq<Msg>>)
    ensures FreshDeliveries(s, OnTrb(s, del))
  {
    var s1 := s.(trbDone := s.trbDone + 1);
    if del.Some? {
      RedeliverOnce(s1.delivered, del.value);
    }
    TrbDeliversRedelivered(s, del);
  }

  /** A flush's deliveries, and the records it leaves delivered, are those of its redelivery. */
  lemma TrbDeliversRedelivered(s: State, del: Option<seq<Msg>>)
    ensures var s1 := s.(trbDone := s.trbDone + 1);
      var rd := if del.Some? then RedeliverAll(s1.delivered, del.value) else Redelivery(s1.delivered, [], false);
      var r := OnTrb(s, del);
      DeliveredKeys(r.out) == DeliveredKeys(rd.out) && r.s.delivered == rd.delivered
  {
    var r := OnTrb(s, del);
    var s1 := s.(trbDone := s.trbDone + 1);
    var rd := if del.Some? then RedeliverAll(s1.delivered, del.value) else Redelivery(s1.delivered, [], false);
    var s2 := s1.(delivered := rd.delivered);
    if !rd.raised {
      var t := FlushNext(s2);
      TrbTailDeliversNothing(s2);
      assert r.out == rd.out + t.out && r.s.delivered == rd.delivered;
      DeliveredKeysAppend(rd.out, t.out);
      assert DeliveredKeys(r.out) == DeliveredKeys(rd.out) + [];
    } else {
      assert r.out == rd.out && r.s.delivered == rd.delivered;
    }
  }

  /** What follows the redelivery of a flush delivers nothing and leaves the delivered records alone. */
  lemma TrbTailDeliversNothing(s: State)
    ensures DeliveredKeys(FlushNext(s).out) == []
  {
    var t := FlushNext(s);
    if s.current.Some? && s.trbDone >= PS.Size(s.current.value.memb) && s.blocked {
      var i := Step(s.(current := s.next, flushing := false, blocked := false), [Install(s.next), Release], false);
      assert t.out == [Install(s.next), Release] + MoreViews(i.s).out;
    }
    NoDeliveryKeys(t.out);
  }

  /** A network message is delivered only when its key is new, and is then recorded. */
  lemma RcoDeliversOnce(s: State, source: Addr, name: string, m: Message)
    ensures FreshDeliveries(s, OnRcoDeliver(s, source, name, m))
  {
    var r := OnRcoDeliver(s, source, name, m);
    if r.out != [] {
      assert r.out[1..] == [];
    } else {
      NoDeliveryKeys(r.out);
    }
  }

  /**
   * At-most-once delivery for what comes from the network and from the
   * flush; the other handlers deliver nothing except a local broadcast,
   * whose key is fresh as `BroadcastFresh` states. The set of delivered
   * keys never shrinks.
   */
  lemma DeliversOnce(s: State, e: Event)
    ensures s.delivered.Keys <= Handle(s, e).s.delivered.Keys
    ensures !e.Broadcast? ==> FreshDeliveries(s, Handle(s, e))
  {
    var r := Handle(s, e);
    match e
    case TrbDeliver(del) => TrbDeliversOnce(s, del);
    case RcoDeliver(source, name, m) => RcoDeliversOnce(s, source, name, m);
    case Broadcast(name, m) =>
    case ViewEvent(v) =>
      if v.Some? && v.value.id == 0 {
        assert r.out == [Pass, Release] + MoreViews(s.(current := v, blocked := false)).out;
      }
      NoDeliveryKeys(r.out);
    case _ => NoDeliveryKeys(r.out);
  }

  /**
   * Views install in the order they arrive: a later view joins the back of
   * the queue, and a flush starts only when none is under way, for the view
   * at the front.
   */
  lemma ViewsQueueInOrder(s: State, v: View)
    requires v.id != 0
    ensures var r := OnView(s, Some(v));
      && !r.raised
      && (s.flushing ==> r.s == s.(pending := s.pending + [v]) && r.out == [])
      && (!s.flushing ==>
            var q := s.pending + [v];
            && r.out == [Block] && r.s.flushing
            && r.s.next == Some(q[0]) && r.s.pending == q[1..])
  {
  }

  /** The first view is installed at once and releases the application. */
  lemma FirstViewInstalled(s: State, v: View)
    requires v.id == 0
    ensures var r := OnView(s, Some(v));
      && !r.raised && r.s.current == Some(v) && !r.s.blocked
      && r.out[..2] == [Pass, Release]
  {
  }

  /**
   * The flush runs one TRB per member of the current view, in rank order:
   * after the TRB for rank `trbDone - 1` comes the one for rank `trbDone`,
   * where the member proposes its own delivered set and the others the
   * empty set, provided ChannelInit has set the message factory (the TRB
   * raises otherwise); after the last one the next view is installed.
   */
  lemma FlushInRankOrder(s: State)
    requires s.current.Some?
    ensures var r := OnTrb(s, None);
      var memb := s.current.value.memb;
      var k := s.trbDone + 1;
      && r.s.trbDone == k
      && (0 <= k < PS.Size(memb) && memb.procs[k].Some? ==>
            var p := memb.procs[k].value;
            && (r.raised <==> !s.factory)
            && r.out == if s.factory then [TrbSend(p.addr, if p.isSelf then s.delivered else map[])] else [])
      && (k >= PS.Size(memb) && s.blocked ==>
            && !r.raised && r.s.current == s.next && !r.s.blocked
            && r.out[..2] == [Install(s.next), Release])
  {
  }

  /** Blocking starts the flush with the TRB for rank 0: the member at rank 0 proposes what it delivered. */
  lemma BlockStartsFlush(s: State)
    requires s.current.Some? && PS.Size(s.current.value.memb) > 0 && s.current.value.memb.procs[0].Some?
    ensures var r := OnBlockOk(s);
      var p := s.current.value.memb.procs[0].value;
      && !r.raised && r.s.blocked && r.s.trbDone == 0
      && r.out == [TrbSend(p.addr, if p.isSelf then s.delivered else map[])]
  {
  }

  /** A broadcast carries the local identifier and the current view's identifier back to the receivers. */
  lemma BroadcastReachesReceivers(s: State, name: string, m: Message)
    requires !s.blocked && s.current.Some? && 0 <= s.current.value.memb.self < PS.Size(s.current.value.memb)
    requires PS.GetSelfProcess(s.current.value.memb).Some?
    ensures var r := OnBroadcast(s, name, m);
      && !r.raised && r.out[1].Send?
      && ParseFrame(r.out[1].m) == Some((s.current.value.id, s.msgId + 1, m))
  {
    FrameRoundTrip(m, s.msgId + 1, s.current.value.id);
  }

  /**
   * A message sent in another view is dropped; one of the current view
   * from a member, not yet delivered, is delivered with its body as sent.
   */
  lemma RcoFiltersByView(s: State, source: Addr, name: string, body: Message, mid: int, vid: int)
    requires s.current.Some?
    ensures var r := OnRcoDeliver(s, source, name, Frame(body, mid, vid));
      var src := PS.GetProcessByAddr(s.current.value.memb, source);
      && (vid != s.current.value.id ==> r == Step(s, [], false))
      && (vid == s.current.value.id && src.Some? && Key(src.value.addr, mid) !in s.delivered ==>
            && !r.raised && r.out == [Deliver(Key(src.value.addr, mid), Some(source), name, body)]
            && Key(src.value.addr, mid) in r.s.delivered)
  {
    FrameRoundTrip(body, mid, vid);
  }
}
