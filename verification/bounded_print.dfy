/**
 * The bounded print session: after a ChannelInit it forwards at most five
 * print requests, raises an alarm when the budget runs out, and answers every
 * later request with a NOK status carrying the request's id. Print
 * confirmations come back up as OK statuses.
 */
module BoundedPrint {

  /** The budget a ChannelInit grants. */
  const BOUND: int := 5

  datatype Event = ChannelInit | Request(id: int) | Confirm(id: int) | Other

  datatype Out = PassInit | Forward(id: int) | Alarm | Status(id: int, ok: bool)

  /** The remaining budget after the event, and the events emitted. */
  datatype Step = Step(bound: int, out: seq<Out>)

  /** `handle`: events of any other kind are swallowed. */
  function Handle(bound: int, e: Event): (r: Step)
    ensures e.ChannelInit? ==> r == Step(BOUND, [PassInit])
    ensures e.Request? && bound > 0 ==>
      r.bound == bound - 1 && r.out == [Forward(e.id)] + (if bound == 1 then [Alarm] else [])
    ensures e.Request? && bound <= 0 ==> r == Step(bound, [Status(e.id, false)])
    ensures e.Confirm? ==> r == Step(bound, [Status(e.id, true)])
    ensures e.Other? ==> r == Step(bound, [])
    ensures 0 <= bound <= BOUND ==> 0 <= r.bound <= BOUND
  {
    match e
    case ChannelInit => Step(BOUND, [PassInit])
    case Request(id) =>
      if bound > 0 then
        var b := bound - 1;
        Step(b, [Forward(id)] + (if b == 0 then [Alarm] else []))
      else Step(bound, [Status(id, false)])
    case Confirm(id) => Step(bound, [Status(id, true)])
    case Other => Step(bound, [])
  }

  /** A run of requests with the given ids, in order, from budget `bound`. */
  function Serve(bound: int, ids: seq<int>): (r: Step)
    decreases |ids|
  {
    if ids == [] then Step(bound, [])
    else
      var first := Handle(bound, Request(ids[0]));
      var rest := Serve(first.bound, ids[1..]);
      Step(rest.bound, first.out + rest.out)
  }

  function Forwards(ids: seq<int>): (r: seq<Out>)
    ensures |r| == |ids| && forall i :: 0 <= i < |ids| ==> r[i] == Forward(ids[i])
  {
    seq(|ids|, i requires 0 <= i < |ids| => Forward(ids[i]))
  }

  function Refusals(ids: seq<int>): (r: seq<Out>)
    ensures |r| == |ids| && forall i :: 0 <= i < |ids| ==> r[i] == Status(ids[i], false)
  {
    seq(|ids|, i requires 0 <= i < |ids| => Status(ids[i], false))
  }

  /**
   * What a budget of `k` promises for a run of requests: the first `k` are
   * forwarded, the alarm follows the one that uses up the budget, and every
   * later request is refused with its own id.
   */
  function Budgeted(k: nat, ids: seq<int>): (r: seq<Out>)
    ensures |r| == |ids| + if k > 0 && |ids| >= k then 1 else 0
  {
    var m := if k < |ids| then k else |ids|;
    Forwards(ids[..m]) + (if k > 0 && |ids| >= k then [Alarm] else []) + Refusals(ids[m..])
  }

  /** A run from budget `k` emits exactly what the budget promises and leaves the unused budget. */
  lemma {:induction false} ServeBudgeted(k: nat, ids: seq<int>)
    ensures Serve(k, ids).out == Budgeted(k, ids)
    ensures Serve(k, ids).bound == if k < |ids| then 0 else k - |ids|
    decreases |ids|
  {
    if ids != [] {
      var rest := ids[1..];
      BudgetedCons(k, ids);
      if k == 0 {
        ServeBudgeted(0, rest);
      } else {
        ServeBudgeted(k - 1, rest);
      }
    }
  }

  /** The promise for a run, unfolded by its first request. */
  lemma BudgetedCons(k: nat, ids: seq<int>)
    requires ids != []
    ensures k == 0 ==> Budgeted(k, ids) == [Status(ids[0], false)] + Budgeted(0, ids[1..])
    ensures k > 0 ==> Budgeted(k, ids) == [Forward(ids[0])] + (if k == 1 then [Alarm] else []) + Budgeted(k - 1, ids[1..])
  {
    if k == 0 {
      var rest := ids[1..];
      assert ids[0..] == [ids[0]] + rest && rest[0..] == rest;
      RefusalsCons(ids[0], rest);
    } else {
      BudgetedConsForward(k, ids);
    }
  }

  /** A positive budget forwards the first request and spends one unit on it. */
  lemma BudgetedConsForward(k: nat, ids: seq<int>)
    requires ids != [] && k > 0
    ensures Budgeted(k, ids) == [Forward(ids[0])] + (if k == 1 then [Alarm] else []) + Budgeted(k - 1, ids[1..])
  {
    var rest := ids[1..];
    var m := if k < |ids| then k else |ids|;
    var x := Forward(ids[0]);
    var f, r := Forwards(rest[..m - 1]), Refusals(rest[m - 1..]);
    assert Forwards(ids[..m]) == [x] + f by {
      assert ids[..m] == [ids[0]] + rest[..m - 1];
      ForwardsCons(ids[0], rest[..m - 1]);
    }
    assert Refusals(ids[m..]) == r by {
      assert ids[m..] == rest[m - 1..];
    }
    var a := if |ids| >= k then [Alarm] else [];
    var a' := if k - 1 > 0 && |rest| >= k - 1 then [Alarm] else [];
    assert Budgeted(k, ids) == ([x] + f) + a + r;
    assert Budgeted(k - 1, rest) == f + a' + r;
    if k == 1 {
      assert rest[..m - 1] == [];
      Regroup(x, [Alarm], f, r);
    } else {
      assert a == a';
      Regroup(x, [], f + a, r);
    }
  }

  /** Concatenation regrouped around one leading output, when `a` and `f` cannot both hold something. */
  lemma Regroup(x: Out, a: seq<Out>, f: seq<Out>, r: seq<Out>)
    requires f == [] || a == []
    ensures [x] + a + (f + r) == ([x] + f) + a + r
  {
  }

  lemma ForwardsCons(id: int, ids: seq<int>)
    ensures Forwards([id] + ids) == [Forward(id)] + Forwards(ids)
  {
  }

  lemma RefusalsCons(id: int, ids: seq<int>)
    ensures Refusals([id] + ids) == [Status(id, false)] + Refusals(ids)
  {
  }

  /** Position by position: forwards first, the alarm at position `k`, refusals after it. */
  lemma BudgetedShape(k: nat, ids: seq<int>)
    requires 0 < k <= |ids|
    ensures forall i :: 0 <= i < k ==> Budgeted(k, ids)[i] == Forward(ids[i])
    ensures Budgeted(k, ids)[k] == Alarm
    ensures forall i :: k <= i < |ids| ==> Budgeted(k, ids)[i + 1] == Status(ids[i], false)
  {
    var f, rf := Forwards(ids[..k]), Refusals(ids[k..]);
    assert Budgeted(k, ids) == f + [Alarm] + rf;
    forall i | k <= i < |ids|
      ensures Budgeted(k, ids)[i + 1] == Status(ids[i], false)
    {
      assert (f + [Alarm] + rf)[i + 1] == rf[i - k];
    }
  }

  /**
   * After a ChannelInit: the first five requests are forwarded, the alarm
   * comes right after the fifth, and each later request is refused with its
   * own id.
   */
  lemma FiveThenRefuse(ids: seq<int>)
    requires |ids| >= BOUND
    ensures var r := Serve(Handle(0, ChannelInit).bound, ids);
      && r.out == Budgeted(BOUND, ids)
      && (forall i :: 0 <= i < BOUND ==> r.out[i] == Forward(ids[i]))
      && r.out[BOUND] == Alarm && r.bound == 0
      && forall i :: BOUND <= i < |ids| ==> r.out[i + 1] == Status(ids[i], false)
  {
    ServeBudgeted(BOUND, ids);
    BudgetedShape(BOUND, ids);
  }
}
