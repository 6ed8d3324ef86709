/**
 * What the two uniform reliable broadcasts share: the ack-table entry kept
 * per message identifier, the events they emit, the lookup of a
 * broadcaster's address by process number, and the delivery scan both run
 * after every event.
 */
module UrbEntry {
  import opened Common
  import PS = ProcessSet
  import opened Stack

  /** `MessageEntry`: the first copy received (identifier popped), its identifier, one ack flag per rank. */
  datatype Entry = Entry(msg: Message, id: MsgId, acks: seq<bool>)

  /**
   * `Pass`: the handled event goes on unchanged; `Send(m)`: a message goes
   * down to best-effort broadcast; `Deliver`: a message goes up with the
   * broadcaster's address as source (`id` names it in the model; the event
   * itself no longer carries it).
   */
  datatype Out = Pass | Send(m: Message) | Deliver(id: MsgId, source: Addr, m: Message)

  /** Identifiers of the deliveries in an output. */
  function DeliveredIds(out: seq<Out>): (r: set<MsgId>)
  {
    set i | 0 <= i < |out| && out[i].Deliver? :: out[i].id
  }

  lemma DeliveredIdsCons(o: Out, out: seq<Out>)
    requires o.Deliver?
    ensures DeliveredIds([o] + out) == {o.id} + DeliveredIds(out)
  {
    var l := [o] + out;
    forall x | x in DeliveredIds(l)
      ensures x in {o.id} + DeliveredIds(out)
    {
      var i :| 0 <= i < |l| && l[i].Deliver? && l[i].id == x;
      if i > 0 {
        assert l[i] == out[i - 1];
      }
    }
    forall x | x in DeliveredIds(out)
      ensures x in DeliveredIds(l)
    {
      var i :| 0 <= i < |out| && out[i].Deliver? && out[i].id == x;
      assert l[i + 1] == out[i];
    }
    assert l[0] == o;
  }

  /** The result of a delivery scan: the new `delivered` set, the deliveries, whether it raised. */
  datatype Scan = Scan(delivered: set<MsgId>, out: seq<Out>, raised: bool)

  /**
   * `urbTryDeliver`: visits the ack table in `order` (the table's iteration
   * order, which Java leaves unspecified). `ready(id)` is what `canDeliver`
   * finds about an entry apart from the `delivered` test (`None` when it
   * raises); each entry that is ready and not delivered is added to
   * `delivered` and then delivered with its broadcaster's address.
   */
  function TryDeliver(ack: map<MsgId, Entry>, ready: MsgId -> Option<bool>, ps: Option<PS.ProcessSet>,
                      delivered: set<MsgId>, order: seq<MsgId>): (r: Scan)
    decreases |order|
  {
    if order == [] then Scan(delivered, [], false)
    else
      var id := order[0];
      if id !in ack then TryDeliver(ack, ready, ps, delivered, order[1..])
      else
        match ready(id)
        case None => Scan(delivered, [], true)
        case Some(false) => TryDeliver(ack, ready, ps, delivered, order[1..])
        case Some(true) =>
          if id in delivered then TryDeliver(ack, ready, ps, delivered, order[1..])
          else
            var d := delivered + {id};
            var src := if ps.None? then None else PS.AddrOfRank(ps.value, id.process);
            if src.None? then Scan(d, [], true)
            else
              var rest := TryDeliver(ack, ready, ps, d, order[1..]);
              Scan(rest.delivered, [Deliver(id, src.value, ack[id].msg)] + rest.out, rest.raised)
  }

  /**
   * A scan delivers each identifier at most once, only identifiers not
   * delivered before whose entries were ready, each with its entry's
   * message, and records every one it delivers in `delivered` (when it
   * raises, `delivered` may also hold the one whose sender could not be
   * looked up); it never removes from `delivered`.
   */
  lemma {:induction false} TryDeliverOnce(ack: map<MsgId, Entry>, ready: MsgId -> Option<bool>, ps: Option<PS.ProcessSet>,
                                          delivered: set<MsgId>, order: seq<MsgId>)
    ensures var r := TryDeliver(ack, ready, ps, delivered, order);
      && (forall i :: 0 <= i < |r.out| ==> r.out[i].Deliver?)
      && delivered + DeliveredIds(r.out) <= r.delivered
      && (!r.raised ==> r.delivered == delivered + DeliveredIds(r.out))
      && (forall i :: 0 <= i < |r.out| ==>
            var id := r.out[i].id;
            id !in delivered && id in ack && r.out[i].m == ack[id].msg && ready(id) == Some(true))
      && (forall i, j :: 0 <= i < j < |r.out| ==> r.out[i].id != r.out[j].id)
    decreases |order|
  {
    var r := TryDeliver(ack, ready, ps, delivered, order);
    if order != [] {
      var id := order[0];
      if id !in ack || ready(id) == Some(false) || (ready(id) == Some(true) && id in delivered) {
        TryDeliverOnce(ack, ready, ps, delivered, order[1..]);
      } else if ready(id) == Some(true) && ps.Some? && PS.AddrOfRank(ps.value, id.process).Some? {
        var d := delivered + {id};
        TryDeliverOnce(ack, ready, ps, d, order[1..]);
        var rest := TryDeliver(ack, ready, ps, d, order[1..]);
        ScanConsOnce(ack, ready, delivered, id, r.out[0], rest, r);
      }
    }
  }

  /** What `TryDeliverOnce` states of a scan `r` started from `delivered`. */
  predicate ScannedOnce(ack: map<MsgId, Entry>, ready: MsgId -> Option<bool>, delivered: set<MsgId>, r: Scan)
  {
    && (forall i :: 0 <= i < |r.out| ==> r.out[i].Deliver?)
    && delivered + DeliveredIds(r.out) <= r.delivered
    && (!r.raised ==> r.delivered == delivered + DeliveredIds(r.out))
    && (forall i :: 0 <= i < |r.out| ==>
          var id := r.out[i].id;
          id !in delivered && id in ack && r.out[i].m == ack[id].msg && ready(id) == Some(true))
    && (forall i, j :: 0 <= i < j < |r.out| ==> r.out[i].id != r.out[j].id)
  }

  /** Delivering a ready, undelivered `id` in front of a scan started with `id` delivered keeps the scan's properties. */
  lemma ScanConsOnce(ack: map<MsgId, Entry>, ready: MsgId -> Option<bool>, delivered: set<MsgId>, id: MsgId, o: Out, rest: Scan, r: Scan)
    requires id in ack && ready(id) == Some(true) && id !in delivered
    requires o.Deliver? && o.id == id && o.m == ack[id].msg
    requires ScannedOnce(ack, ready, delivered + {id}, rest)
    requires r == Scan(rest.delivered, [o] + rest.out, rest.raised)
    ensures ScannedOnce(ack, ready, delivered, r)
  {
    forall i | 0 <= i < |r.out|
      ensures var x := r.out[i].id; x !in delivered && x in ack && r.out[i].m == ack[x].msg && ready(x) == Some(true)
    {
      if i > 0 {
        assert r.out[i] == rest.out[i - 1];
      }
    }
    forall i, j | 0 <= i < j < |r.out|
      ensures r.out[i].id != r.out[j].id
    {
      assert r.out[j] == rest.out[j - 1];
      if i > 0 {
        assert r.out[i] == rest.out[i - 1];
      }
    }
    DeliveredIdsCons(o, rest.out);
  }

  /**
   * A scan that does not raise leaves no identifier it visited both ready
   * and undelivered.
   */
  lemma {:induction false} TryDeliverComplete(ack: map<MsgId, Entry>, ready: MsgId -> Option<bool>, ps: Option<PS.ProcessSet>,
                                              delivered: set<MsgId>, order: seq<MsgId>)
    ensures var r := TryDeliver(ack, ready, ps, delivered, order);
      !r.raised ==> forall id :: id in ack && id in order && ready(id) == Some(true) ==> id in r.delivered
    decreases |order|
  {
    var r := TryDeliver(ack, ready, ps, delivered, order);
    if order != [] && !r.raised {
      var id := order[0];
      TryDeliverOnce(ack, ready, ps, delivered, order);
      if id !in ack || ready(id) == Some(false) || (ready(id) == Some(true) && id in delivered) {
        TryDeliverComplete(ack, ready, ps, delivered, order[1..]);
        forall x | x in ack && x in order && ready(x) == Some(true)
          ensures x in r.delivered
        {
          if x != id {
            assert x in order[1..];
          }
        }
      } else {
        assert ready(id).Some? && ready(id).value;
        var d := delivered + {id};
        TryDeliverComplete(ack, ready, ps, d, order[1..]);
        TryDeliverOnce(ack, ready, ps, d, order[1..]);
        forall x | x in ack && x in order && ready(x) == Some(true)
          ensures x in r.delivered
        {
          if x != id {
            assert x in order[1..];
          }
        }
      }
    }
  }

  /**
   * When `order` lists every key of the table, as an iteration over the
   * table's values does, a scan that does not raise leaves no entry of the
   * table ready and undelivered.
   */
  lemma TryDeliverCompleteOverTable(ack: map<MsgId, Entry>, ready: MsgId -> Option<bool>, ps: Option<PS.ProcessSet>,
                                    delivered: set<MsgId>, order: seq<MsgId>)
    requires forall id :: id in ack ==> id in order
    ensures var r := TryDeliver(ack, ready, ps, delivered, order);
      !r.raised ==> forall id :: id in ack && ready(id) == Some(true) ==> id in r.delivered
  {
    TryDeliverComplete(ack, ready, ps, delivered, order);
  }
}
