/**
 * The delay session: at the delaying process, messages arriving from the
 * delayed process are held back for a number of timer tics (or passed on at
 * once when that number is 0, or dropped when it is negative). Every other
 * message passes through. A DelayEvent from the application turns the local
 * process into the delayer and chooses the delayed process and the delay.
 */
module Delay {
  import opened Common
  import PS = ProcessSet

  /** A message travelling up, from `source`. */
  datatype Msg = Msg(source: Addr, body: Payload)

  /** A held-back message and the tics left before it is released. */
  datatype Delayed = Delayed(msg: Msg, counter: int)

  datatype State = State(
    delayer: int,
    delayed: int,
    tics: int,
    target: Option<Addr>,
    processes: Option<PS.ProcessSet>,
    list: seq<Delayed>)

  datatype Event =
    | ChannelInit
    | ProcessInit(ps: PS.ProcessSet)
    | Tic
    | SetDelay(delayed: int, tics: int)
    | Up(m: Msg)
    | Down(m: Msg)
    | Other

  /** `Pass`: the handled event goes on; `StartTimer`: the periodic tic timer is set up. */
  datatype Out = Pass | StartTimer | Deliver(m: Msg)

  datatype Step = Step(s: State, out: seq<Out>, raised: bool)

  /** Held-back messages all have tics left. */
  predicate Valid(s: State)
  {
    forall i :: 0 <= i < |s.list| ==> s.list[i].counter > 0
  }

  /** The defaults: process 2 delays the messages of process 0 by 30 tics; nothing is held back. */
  function Init(): (s: State)
    ensures Valid(s) && s.list == [] && s.processes.None? && s.target.None?
    ensures s.delayer == 2 && s.delayed == 0 && s.tics == 30
  {
    State(2, 0, 30, None, None, [])
  }

  /**
   * One tic: every counter drops by one; the messages whose counter reaches 0
   * are released in list order and the others stay in order.
   */
  function TicList(list: seq<Delayed>): (r: (seq<Msg>, seq<Delayed>))
    ensures |r.0| + |r.1| == |list|
    ensures forall d :: d in r.1 ==> d.counter > 0
  {
    if list == [] then ([], [])
    else
      var rest := TicList(list[1..]);
      var d := list[0];
      if d.counter - 1 <= 0 then ([d.msg] + rest.0, rest.1)
      else (rest.0, [d.(counter := d.counter - 1)] + rest.1)
  }

  /** A tic keeps a message with more than one tic left, one tic shorter, and keeps nothing else. */
  lemma TicListKeeps(list: seq<Delayed>)
    ensures forall m, c :: Delayed(m, c) in list && c > 1 ==> Delayed(m, c - 1) in TicList(list).1
    ensures forall d :: d in TicList(list).1 ==> Delayed(d.msg, d.counter + 1) in list
  {
    TicListKeepsShorter(list);
    TicListKeptWereLonger(list);
  }

  lemma {:induction false} TicListKeepsShorter(list: seq<Delayed>)
    ensures forall m, c :: Delayed(m, c) in list && c > 1 ==> Delayed(m, c - 1) in TicList(list).1
  {
    if list != [] {
      TicListKeepsShorter(list[1..]);
      var d := list[0];
      var rest := TicList(list[1..]);
      assert list == [d] + list[1..];
      assert TicList(list).1 == if d.counter - 1 <= 0 then rest.1 else [d.(counter := d.counter - 1)] + rest.1;
      forall m, c | Delayed(m, c) in list && c > 1
        ensures Delayed(m, c - 1) in TicList(list).1
      {
        if Delayed(m, c) != d {
          assert Delayed(m, c) in list[1..];
        }
      }
    }
  }

  lemma {:induction false} TicListKeptWereLonger(list: seq<Delayed>)
    ensures forall d :: d in TicList(list).1 ==> Delayed(d.msg, d.counter + 1) in list
  {
    if list != [] {
      TicListKeptWereLonger(list[1..]);
      var d := list[0];
      var rest := TicList(list[1..]);
      assert TicList(list).1 == if d.counter - 1 <= 0 then rest.1 else [d.(counter := d.counter - 1)] + rest.1;
      forall x | x in TicList(list).1
        ensures Delayed(x.msg, x.counter + 1) in list
      {
        if x in rest.1 {
          assert Delayed(x.msg, x.counter + 1) in list[1..];
        } else {
          assert x == d.(counter := d.counter - 1);
          assert list[0] == Delayed(x.msg, x.counter + 1);
        }
      }
    }
  }

  /** A tic releases a message with at most one tic left and releases nothing else. */
  lemma {:induction false} TicListReleases(list: seq<Delayed>)
    ensures forall m, c :: Delayed(m, c) in list && c <= 1 ==> m in TicList(list).0
    ensures forall m :: m in TicList(list).0 ==> exists c :: c <= 1 && Delayed(m, c) in list
  {
    if list != [] {
      TicListReleases(list[1..]);
      var d := list[0];
      var rest := TicList(list[1..]);
      assert list == [d] + list[1..];
      assert TicList(list).0 == if d.counter - 1 <= 0 then [d.msg] + rest.0 else rest.0;
      forall m, c | Delayed(m, c) in list && c <= 1
        ensures m in TicList(list).0
      {
        if Delayed(m, c) != d {
          assert Delayed(m, c) in list[1..];
        }
      }
      forall m | m in TicList(list).0
        ensures exists c :: c <= 1 && Delayed(m, c) in list
      {
        if m != d.msg || d.counter > 1 {
          assert m in rest.0;
          var c :| c <= 1 && Delayed(m, c) in list[1..];
          assert Delayed(m, c) in list;
        } else {
          assert Delayed(m, d.counter) == d;
        }
      }
    }
  }

  /**
   * What a tic does to each held-back message: one with more than one tic
   * left stays with one tic less, any other is released; and nothing else
   * is kept or released.
   */
  lemma TicListMoves(list: seq<Delayed>)
    ensures forall m, c :: Delayed(m, c) in list && c > 1 ==> Delayed(m, c - 1) in TicList(list).1
    ensures forall m, c :: Delayed(m, c) in list && c <= 1 ==> m in TicList(list).0
    ensures forall d :: d in TicList(list).1 ==> Delayed(d.msg, d.counter + 1) in list
    ensures forall m :: m in TicList(list).0 ==> exists c :: c <= 1 && Delayed(m, c) in list
  {
    TicListKeeps(list);
    TicListReleases(list);
  }

  function Handle(s: State, e: Event): (r: Step)
    ensures Valid(s) ==> Valid(r.s)
    ensures e.ChannelInit? ==> r == Step(s, [Pass, StartTimer], false)
    ensures e.Tic? ==>
      var t := TicList(s.list);
      r == Step(s.(list := t.1), seq(|t.0|, i requires 0 <= i < |t.0| => Deliver(t.0[i])) + [Pass], false)
    ensures e.Down? || e.Other? ==> r == Step(s, [Pass], false)
    ensures e.Up? ==>
      && r.s.(list := s.list) == s
      && (r.raised <==> s.processes.None?)
      && (!r.raised ==>
           var held := s.delayer == s.processes.value.self && s.target == Some(e.m.source);
           && (r.out == [Deliver(e.m)] <==> !held || s.tics == 0)
           && (r.s.list == s.list + [Delayed(e.m, s.tics)] <==> held && s.tics > 0)
           && (r.out == [] <==> held && s.tics != 0)
           && (r.s.list == s.list <==> !held || s.tics <= 0))
    ensures e.ProcessInit? ==>
      && r.s.processes == Some(e.ps) && r.s.list == s.list
      && (r.raised <==> s.delayed >= 0 && PS.AddrOfRank(e.ps, s.delayed).None?)
      && r.s.target == (if s.delayed >= 0 && !r.raised then PS.AddrOfRank(e.ps, s.delayed) else s.target)
      && r.out == (if r.raised then [] else [Pass])
    ensures e.SetDelay? ==>
      && r.out == [] && r.s.list == s.list
      && (s.processes.None? ==> r.raised && r.s == s)
      && (s.processes.Some? ==>
           && r.s.delayer == s.processes.value.self && r.s.delayed == e.delayed && r.s.tics == e.tics
           && (r.raised <==> PS.AddrOfRank(s.processes.value, e.delayed).None?)
           && r.s.target == (if r.raised then s.target else PS.AddrOfRank(s.processes.value, e.delayed)))
  {
    match e
    case ChannelInit => Step(s, [Pass, StartTimer], false)
    case ProcessInit(ps) =>
      var s1 := s.(processes := Some(ps));
      if s.delayed >= 0 then
        var a := PS.AddrOfRank(ps, s.delayed);
        if a.None? then Step(s1, [], true) else Step(s1.(target := a), [Pass], false)
      else Step(s1, [Pass], false)
    case Tic =>
      var t := TicList(s.list);
      Step(s.(list := t.1), seq(|t.0|, i requires 0 <= i < |t.0| => Deliver(t.0[i])) + [Pass], false)
    case SetDelay(delayed, tics) =>
      if s.processes.None? then Step(s, [], true)
      else
        var s1 := s.(delayer := s.processes.value.self, delayed := delayed, tics := tics);
        var a := PS.AddrOfRank(s.processes.value, delayed);
        if a.None? then Step(s1, [], true) else Step(s1.(target := a), [], false)
    case Up(m) =>
      if s.processes.None? then Step(s, [], true)
      else if s.delayer == s.processes.value.self && s.target == Some(m.source) then
        if s.tics > 0 then Step(s.(list := s.list + [Delayed(m, s.tics)]), [], false)
        else if s.tics == 0 then Step(s, [Deliver(m)], false)
        else Step(s, [], false)
      else Step(s, [Deliver(m)], false)
    case Down(_) => Step(s, [Pass], false)
    case Other => Step(s, [Pass], false)
  }

  /** The list after `n` tics. */
  function AfterTics(list: seq<Delayed>, n: nat): seq<Delayed>
    decreases n
  {
    if n == 0 then list else AfterTics(TicList(list).1, n - 1)
  }

  /**
   * A message held back with counter `c` stays held, with `c - k` tics left,
   * for the first `k < c` tics, and the `c`-th tic releases it.
   */
  lemma {:induction false} ReleasedOnTic(list: seq<Delayed>, m: Msg, c: int, k: nat)
    requires Delayed(m, c) in list && k < c
    ensures Delayed(m, c - k) in AfterTics(list, k)
    ensures k == c - 1 ==> m in TicList(AfterTics(list, k)).0
    decreases k
  {
    TicListMoves(list);
    if k == 0 {
      assert AfterTics(list, 0) == list;
    } else {
      assert Delayed(m, c - 1) in TicList(list).1;
      ReleasedOnTic(TicList(list).1, m, c - 1, k - 1);
    }
  }

  /**
   * At the delayer, a message from the delayed process is held for the first
   * `k < tics` tics after it arrives and released by the `tics`-th.
   */
  lemma HeldForTics(s: State, m: Msg, k: nat)
    requires s.processes.Some? && s.delayer == s.processes.value.self && s.target == Some(m.source)
    requires k < s.tics
    ensures var r := Handle(s, Up(m));
      && r.out == []
      && Delayed(m, s.tics - k) in AfterTics(r.s.list, k)
      && (k == s.tics - 1 ==> m in TicList(AfterTics(r.s.list, k)).0)
  {
    var l := s.list + [Delayed(m, s.tics)];
    assert l[|l| - 1] == Delayed(m, s.tics);
    ReleasedOnTic(l, m, s.tics, k);
  }
}
