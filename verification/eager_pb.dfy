/**
 * Eager probabilistic broadcast (gossip). A broadcast sends the message,
 * tagged with its identifier and a round number, to `fanout` processes
 * picked at random; a receiver delivers the message the first time it sees
 * the identifier and, while the round is positive, gossips it on with the
 * round one lower.
 */
module EagerPB {
  import opened Common
  import PS = ProcessSet
  import opened Stack

  /**
   * `fanout` and `maxRounds` come from the layer; `lists` is false until a
   * ChannelInit creates `delivered`.
   */
  datatype State = State(
    lists: bool,
    processes: Option<PS.ProcessSet>,
    fanout: int,
    maxRounds: int,
    seqNumber: int,
    delivered: set<MsgId>)

  datatype Event =
    | ChannelInit
    | ProcessInit(ps: PS.ProcessSet)
    | Down(m: Message)
    | Up(source: Addr, m: Message)
    | Other

  /** `Send`: a point-to-point message down to `dest`; `Deliver`: up, with the broadcaster's address. */
  datatype Out = Pass | Send(dest: Addr, m: Message) | Deliver(id: MsgId, source: Addr, m: Message)

  datatype Step = Step(s: State, out: seq<Out>, raised: bool)

  /** The constructor: the layer's parameters, sequence number 0. */
  function Init(fanout: int, maxRounds: int): (s: State)
    ensures s.fanout == fanout && s.maxRounds == maxRounds && s.seqNumber == 0
    ensures !s.lists && s.processes.None?
  {
    State(false, None, fanout, maxRounds, 0, {})
  }

  function Min(a: int, b: int): int
  {
    if a <= b then a else b
  }

  function Max(a: int, b: int): int
  {
    if a >= b then a else b
  }

  /** The clamp ProcessInit applies as written: at most the number of processes. */
  function ClampAsWritten(fanout: int, n: nat): (f: int)
    ensures f <= n && (f == fanout || f == n)
  {
    Min(fanout, n)
  }

  /**
   * The clamp the protocol needs: at most the number of other processes,
   * since `pickTargets` never picks the local rank.
   */
  function Clamp(fanout: int, n: nat): (f: int)
    ensures n > 0 ==> f <= n - 1
    ensures n == 0 ==> f <= 0
    ensures f == fanout || f <= fanout
  {
    Min(fanout, if n > 0 then n - 1 else 0)
  }

  /**
   * The loop of `pickTargets`, fed the values `random.nextInt(N)` returns:
   * a draw is kept when it is new and not the local rank, until `fanout`
   * are kept. `None` when the draws run out first.
   */
  function PickFrom(draws: seq<int>, fanout: int, self: int, targets: seq<int>): (r: Option<seq<int>>)
    decreases |draws|
  {
    if |targets| >= fanout then Some(targets)
    else if draws == [] then None
    else
      var c := draws[0];
      PickFrom(draws[1..], fanout, self, if c !in targets && c != self then targets + [c] else targets)
  }

  /** `pickTargets`: starts from no targets. */
  function PickTargets(draws: seq<int>, fanout: int, self: int): (r: Option<seq<int>>)
  {
    PickFrom(draws, fanout, self, [])
  }

  lemma {:induction false} PickFromSound(draws: seq<int>, fanout: int, self: int, targets: seq<int>)
    requires Distinct(targets) && self !in targets && |targets| <= Max(fanout, 0)
    ensures var r := PickFrom(draws, fanout, self, targets);
      r.Some? ==>
        && |r.value| == Max(fanout, 0) && Distinct(r.value) && self !in r.value
        && forall x :: x in r.value ==> x in targets || x in draws
    decreases |draws|
  {
    if |targets| < fanout && draws != [] {
      var c := draws[0];
      var t := if c !in targets && c != self then targets + [c] else targets;
      assert Distinct(t) by {
        if c !in targets && c != self {
          forall i, j | 0 <= i < j < |t|
            ensures t[i] != t[j]
          {
            if j == |targets| {
              assert t[i] == targets[i];
            } else {
              assert t[i] == targets[i] && t[j] == targets[j];
            }
          }
        }
      }
      PickFromSound(draws[1..], fanout, self, t);
      var r := PickFrom(draws, fanout, self, targets);
      if r.Some? {
        forall x | x in r.value
          ensures x in targets || x in draws
        {
          if x !in targets && x != c {
            assert x in draws[1..];
          }
        }
      }
    }
  }

  /**
   * `pickTargets` returns `fanout` distinct ranks, none of them the local
   * one, all among the draws.
   */
  lemma PickTargetsSound(draws: seq<int>, fanout: int, self: int)
    ensures var r := PickTargets(draws, fanout, self);
      r.Some? ==>
        && |r.value| == Max(fanout, 0) && Distinct(r.value) && self !in r.value
        && forall x :: x in r.value ==> x in draws
  {
    PickFromSound(draws, fanout, self, []);
  }

  /** The ranks `0 .. n - 1`. */
  function Range(n: nat): (r: set<int>)
    ensures forall x :: x in r <==> 0 <= x < n
    ensures |r| == n
  {
    if n == 0 then {} else
      var r := Range(n - 1);
      assert n - 1 !in r;
      r + {n - 1}
  }

  lemma SubsetCard<T>(a: set<T>, b: set<T>)
    requires a <= b
    ensures |a| <= |b|
  {
    assert b == a + (b - a);
    assert a * (b - a) == {};
    assert |a + (b - a)| + |a * (b - a)| == |a| + |b - a|;
  }

  /** Distinct ranks below `n` other than `self` number at most `n - 1`. */
  lemma OthersBound(t: seq<int>, n: nat, self: int)
    requires 0 <= self < n && Distinct(t) && self !in t
    requires forall x :: x in t ==> 0 <= x < n
    ensures |t| <= n - 1
  {
    DistinctCard(t);
    SubsetCard(Elems(t), Range(n) - {self});
    assert |Range(n) - {self}| == n - 1 by {
      assert Range(n) == (Range(n) - {self}) + {self};
    }
  }

  lemma {:induction false} PickFromStuck(draws: seq<int>, fanout: int, self: int, targets: seq<int>, n: nat)
    requires 0 <= self < n && fanout >= n
    requires forall x :: x in draws ==> 0 <= x < n
    requires Distinct(targets) && self !in targets && forall x :: x in targets ==> 0 <= x < n
    ensures PickFrom(draws, fanout, self, targets).None?
    decreases |draws|
  {
    OthersBound(targets, n, self);
    if draws != [] {
      var c := draws[0];
      var t := if c !in targets && c != self then targets + [c] else targets;
      assert Distinct(t) by {
        if c !in targets && c != self {
          forall i, j | 0 <= i < j < |t|
            ensures t[i] != t[j]
          {
            if j == |targets| {
              assert t[i] == targets[i];
            } else {
              assert t[i] == targets[i] && t[j] == targets[j];
            }
          }
        }
      }
      assert c in draws;
      assert forall x :: x in draws[1..] ==> x in draws;
      PickFromStuck(draws[1..], fanout, self, t, n);
    }
  }

  /**
   * As written, ProcessInit lets the fanout reach `N` when the layer asks
   * for at least `N`; then `pickTargets` needs `N` distinct ranks other
   * than its own among `N` ranks, so no sequence of random draws ever ends
   * its loop.
   */
  lemma AsWrittenClampNeverPicks(draws: seq<int>, fanout: int, n: nat, self: int)
    requires 0 <= self < n && fanout >= n
    requires forall x :: x in draws ==> 0 <= x < n
    ensures ClampAsWritten(fanout, n) == n
    ensures PickTargets(draws, ClampAsWritten(fanout, n), self).None?
  {
    PickFromStuck(draws, n, self, [], n);
  }

  /** The ranks below `n` other than `self`, in order. */
  function Others(n: nat, self: int): (r: seq<int>)
    ensures forall x :: x in r <==> 0 <= x < n && x != self
    ensures |r| == if 0 <= self < n then n - 1 else n
    ensures forall i, j :: 0 <= i < j < |r| ==> r[i] < r[j]
  {
    if n == 0 then []
    else
      var r := Others(n - 1, self);
      if n - 1 == self then r
      else
        assert forall i :: 0 <= i < |r| ==> r[i] in r;
        r + [n - 1]
  }

  lemma {:induction false} PickOthers(n: nat, self: int, fanout: int, k: nat)
    requires 0 <= self < n && fanout <= n - 1 && k <= |Others(n, self)|
    requires k <= Max(fanout, 0)
    ensures PickFrom(Others(n, self)[k..], fanout, self, Others(n, self)[..k]).Some?
    decreases |Others(n, self)| - k
  {
    var o := Others(n, self);
    if k < fanout {
      assert o[k] in o;
      assert o[k] !in o[..k];
      assert o[k..][1..] == o[k + 1..];
      assert o[..k] + [o[k]] == o[..k + 1];
      PickOthers(n, self, fanout, k + 1);
    }
  }

  /**
   * With the corrected clamp a fanout is always attainable: drawing each
   * other rank once ends the loop of `pickTargets`.
   */
  lemma ClampedPicks(fanout: int, n: nat, self: int)
    requires 0 <= self < n
    ensures PickTargets(Others(n, self), Clamp(fanout, n), self).Some?
  {
    assert Others(n, self)[0..] == Others(n, self);
    assert Others(n, self)[..0] == [];
    PickOthers(n, self, Clamp(fanout, n), 0);
  }

  /** The gossip header: the identifier under the round. */
  function Frame(m: Message, id: MsgId, round: int): (r: Message)
  {
    Push(Push(m, IdItem(id)), IntItem(round))
  }

  /** The receiver pops the round and then the identifier, recovering the message. */
  lemma FrameRoundTrip(m: Message, id: MsgId, round: int)
    ensures PopInt(Frame(m, id, round)) == Some((round, Push(m, IdItem(id))))
    ensures Pop(Push(m, IdItem(id))) == Some((IdItem(id), m))
  {
    PopIntPush(Push(m, IdItem(id)), round);
    PopPush(m, IdItem(id));
  }

  /** The loop of `gossip`: one framed copy per target, in order, stopping at a target with no address. */
  function SendAll(ps: PS.ProcessSet, targets: seq<int>, msg: Message): (r: (seq<Out>, bool))
    ensures !r.1 ==> |r.0| == |targets|
    ensures |r.0| <= |targets|
    ensures forall i :: 0 <= i < |r.0| ==>
      PS.AddrOfRank(ps, targets[i]).Some? && r.0[i] == Send(PS.AddrOfRank(ps, targets[i]).value, msg)
    ensures r.1 <==> exists i :: 0 <= i < |targets| && PS.AddrOfRank(ps, targets[i]).None?
  {
    if targets == [] then ([], false)
    else
      match PS.AddrOfRank(ps, targets[0])
      case None => ([], true)
      case Some(a) =>
        var rest := SendAll(ps, targets[1..], msg);
        assert forall i :: 1 <= i < |targets| ==> targets[1..][i - 1] == targets[i];
        ([Send(a, msg)] + rest.0, rest.1)
  }

  /**
   * `gossip`: `fanout` copies of the message, each carrying the identifier
   * and the round, to the picked targets. `None` when the draws do not end
   * the loop of `pickTargets`; raises on a negative fanout (array size), on
   * a missing process set or an empty one (`nextInt(0)`), or on a target
   * without an address.
   */
  function Gossip(s: State, m: Message, id: MsgId, round: int, draws: seq<int>): (r: Option<(seq<Out>, bool)>)
    ensures s.fanout == 0 ==> r == Some(([], false))
    ensures r.Some? && !r.value.1 ==>
      && |r.value.0| == s.fanout
      && (forall i :: 0 <= i < |r.value.0| ==> r.value.0[i].Send? && r.value.0[i].m == Frame(m, id, round))
  {
    if s.fanout < 0 then Some(([], true))
    else if s.fanout == 0 then Some(([], false))
    else if s.processes.None? || PS.Size(s.processes.value) == 0 then Some(([], true))
    else
      var ps := s.processes.value;
      match PickTargets(draws, s.fanout, ps.self)
      case None => None
      case Some(t) =>
        PickTargetsSound(draws, s.fanout, ps.self);
        Some(SendAll(ps, t, Frame(m, id, round)))
  }

  /** The round a receiver gossips on with: one lower, and only while positive. */
  function Relay(round: int): (r: Option<int>)
    ensures r.Some? <==> round > 0
    ensures r.Some? ==> 0 <= r.value < round
  {
    if round > 0 then Some(round - 1) else None
  }

  /** `pbBroadcast`: the identifier is (own rank, sequence number); gossip starts at round `maxRounds - 1`. */
  function Broadcast(s: State, m: Message, draws: seq<int>): (r: Option<Step>)
    ensures s.processes.None? ==> r == Some(Step(s, [], true))
    ensures s.processes.Some? ==>
      var s1 := s.(seqNumber := s.seqNumber + 1);
      var g := Gossip(s1, m, MsgId(s.processes.value.self, s.seqNumber), s.maxRounds - 1, draws);
      && (g.None? <==> r.None?)
      && (g.Some? ==> r == Some(Step(s1, g.value.0, g.value.1)))
  {
    if s.processes.None? then Some(Step(s, [], true))
    else
      var s1 := s.(seqNumber := s.seqNumber + 1);
      match Gossip(s1, m, MsgId(s.processes.value.self, s.seqNumber), s.maxRounds - 1, draws)
      case None => None
      case Some((out, raised)) => Some(Step(s1, out, raised))
  }

  /**
   * `up2pDeliver`: pop the round and the identifier; a new identifier is
   * recorded and delivered; then, while the round is positive, the message
   * is gossiped on with the round one lower, whether or not it was new.
   */
  function Receive(s: State, m: Message, draws: seq<int>): (r: Option<Step>)
    ensures r.Some? ==> r.value.s.(delivered := s.delivered) == s && s.delivered <= r.value.s.delivered
    ensures r.Some? && !r.value.raised ==>
      forall i :: 0 <= i < |r.value.out| && r.value.out[i].Deliver? ==>
        i == 0 && r.value.out[i].id !in s.delivered && r.value.out[i].id in r.value.s.delivered
  {
    match PopInt(m)
    case None => Some(Step(s, [], true))
    case Some((round, m1)) =>
      match Pop(m1)
      case None => Some(Step(s, [], true))
      case Some((top, rest)) =>
        if !top.IdItem? || !s.lists then Some(Step(s, [], true))
        else
          var id := top.id;
          var isNew := id !in s.delivered;
          var s1 := s.(delivered := s.delivered + {id});
          var src := if s.processes.None? then None else PS.AddrOfRank(s.processes.value, id.process);
          if isNew && src.None? then Some(Step(s1, [], true))
          else
            var out := if isNew then [Deliver(id, src.value, rest)] else [];
            match Relay(round)
            case None => Some(Step(s1, out, false))
            case Some(next) =>
              match Gossip(s1, rest, id, next, draws)
              case None => None
              case Some((g, raised)) => Some(Step(s1, out + g, raised))
  }

  /**
   * A received message with its header: delivered iff its identifier is
   * new, and passed on only with a lower, non-negative round.
   */
  lemma ReceiveSpec(s: State, m: Message, id: MsgId, round: int, draws: seq<int>)
    requires s.lists && s.processes.Some? && PS.AddrOfRank(s.processes.value, id.process).Some?
    ensures var r := Receive(s, Frame(m, id, round), draws);
      r.Some? ==>
        && r.value.s == s.(delivered := s.delivered + {id})
        && (|r.value.out| > 0 && r.value.out[0].Deliver? <==> id !in s.delivered)
        && (id !in s.delivered ==> r.value.out[0] == Deliver(id, PS.AddrOfRank(s.processes.value, id.process).value, m))
        && (forall i :: 0 <= i < |r.value.out| && r.value.out[i].Send? ==>
              round > 0 && r.value.out[i].m == Frame(m, id, round - 1))
        && (round <= 0 ==> forall i :: 0 <= i < |r.value.out| ==> r.value.out[i].Deliver?)
  {
    FrameRoundTrip(m, id, round);
    var r := Receive(s, Frame(m, id, round), draws);
    var s1 := s.(delivered := s.delivered + {id});
    var src := PS.AddrOfRank(s.processes.value, id.process).value;
    var out := if id !in s.delivered then [Deliver(id, src, m)] else [];
    if round <= 0 {
      assert r == Some(Step(s1, out, false));
      ReceiveParts(s, m, id, round, src, out, [], r.value);
    } else {
      var g := Gossip(s1, m, id, round - 1, draws);
      if g.Some? {
        assert r == Some(Step(s1, out + g.value.0, g.value.1));
        GossipSends(s1, m, id, round - 1, draws);
        ReceiveParts(s, m, id, round, src, out, g.value.0, r.value);
      }
    }
  }

  /** The step of a receipt, assembled from the delivery it makes and the copies it gossips. */
  lemma ReceiveParts(s: State, m: Message, id: MsgId, round: int, src: Addr, out: seq<Out>, g: seq<Out>, st: Step)
    requires out == (if id !in s.delivered then [Deliver(id, src, m)] else [])
    requires st.s == s.(delivered := s.delivered + {id}) && st.out == out + g
    requires forall i :: 0 <= i < |g| ==> g[i].Send? && g[i].m == Frame(m, id, round - 1)
    requires round <= 0 ==> g == []
    ensures && st.s == s.(delivered := s.delivered + {id})
      && (|st.out| > 0 && st.out[0].Deliver? <==> id !in s.delivered)
      && (id !in s.delivered ==> st.out[0] == Deliver(id, src, m))
      && (forall i :: 0 <= i < |st.out| && st.out[i].Send? ==> round > 0 && st.out[i].m == Frame(m, id, round - 1))
      && (round <= 0 ==> forall i :: 0 <= i < |st.out| ==> st.out[i].Deliver?)
  {
    forall i | 0 <= i < |st.out| && st.out[i].Send?
      ensures round > 0 && st.out[i].m == Frame(m, id, round - 1)
    {
      assert st.out[i] == g[i - |out|];
    }
  }

  /** Every copy gossip emits carries the identifier and the round, even when it stops early. */
  lemma GossipSends(s: State, m: Message, id: MsgId, round: int, draws: seq<int>)
    ensures var g := Gossip(s, m, id, round, draws);
      g.Some? ==> forall i :: 0 <= i < |g.value.0| ==> g.value.0[i].Send? && g.value.0[i].m == Frame(m, id, round)
  {
  }

  /**
   * Hops are bounded: along a chain of relays, each starting from the round
   * the previous one sent, the first carrying `maxRounds - 1` from the
   * broadcast, there are at most `max(maxRounds, 1)` sends.
   */
  lemma {:induction false} HopsBounded(rounds: seq<int>, maxRounds: int)
    requires |rounds| > 0 && rounds[0] == maxRounds - 1
    requires forall i :: 0 <= i < |rounds| - 1 ==> Relay(rounds[i]) == Some(rounds[i + 1])
    ensures |rounds| <= Max(maxRounds, 1)
    ensures forall i :: 0 <= i < |rounds| ==> rounds[i] == maxRounds - 1 - i
    decreases |rounds|
  {
    if |rounds| > 1 {
      var front := rounds[..|rounds| - 1];
      HopsBounded(front, maxRounds);
      assert Relay(rounds[|rounds| - 2]) == Some(rounds[|rounds| - 1]);
    }
  }

  /** `handle`: `None` when the draws do not end a `pickTargets` loop; events of any other kind are swallowed. */
  function Handle(s: State, e: Event, draws: seq<int>): (r: Option<Step>)
    ensures e.ChannelInit? ==> r == Some(Step(s.(lists := true, delivered := {}), [Pass], false))
    ensures e.ProcessInit? ==>
      r == Some(Step(s.(processes := Some(e.ps), fanout := Clamp(s.fanout, PS.Size(e.ps))), [Pass], false))
    ensures e.Other? ==> r == Some(Step(s, [], false))
  {
    match e
    case ChannelInit => Some(Step(s.(lists := true, delivered := {}), [Pass], false))
    case ProcessInit(ps) => Some(Step(s.(processes := Some(ps), fanout := Clamp(s.fanout, PS.Size(ps))), [Pass], false))
    case Down(m) => Broadcast(s, m, draws)
    case Up(_, m) => Receive(s, m, draws)
    case Other => Some(Step(s, [], false))
  }

  /** After a ProcessInit the fanout never exceeds the number of other processes. */
  lemma FanoutClamped(s: State, ps: PS.ProcessSet, draws: seq<int>)
    requires PS.Size(ps) > 0
    ensures Handle(s, ProcessInit(ps), draws).value.s.fanout <= PS.Size(ps) - 1
    ensures s.fanout <= PS.Size(ps) - 1 ==> Handle(s, ProcessInit(ps), draws).value.s.fanout == s.fanout
  {
  }

  /** `handle` as written: ProcessInit clamps the fanout to at most N; every other event is handled as by `Handle`. */
  function HandleAsWritten(s: State, e: Event, draws: seq<int>): (r: Option<Step>)
    ensures e.ProcessInit? ==>
      r == Some(Step(s.(processes := Some(e.ps), fanout := ClampAsWritten(s.fanout, PS.Size(e.ps))), [Pass], false))
    ensures !e.ProcessInit? ==> r == Handle(s, e, draws)
  {
    match e
    case ProcessInit(ps) => Some(Step(s.(processes := Some(ps), fanout := ClampAsWritten(s.fanout, PS.Size(ps))), [Pass], false))
    case _ => Handle(s, e, draws)
  }

  /** The two dispatches differ only on a ProcessInit whose fanout reaches N. */
  lemma AsWrittenAgreesBelowN(s: State, e: Event, draws: seq<int>)
    requires e.ProcessInit? ==> s.fanout < PS.Size(e.ps)
    ensures HandleAsWritten(s, e, draws) == Handle(s, e, draws)
  {
  }

  /**
   * As written, a ProcessInit with a layer fanout of at least N leaves a
   * session whose next broadcast never ends: no finite sequence of draws
   * completes `pickTargets`.
   */
  lemma AsWrittenInitStallsBroadcast(s: State, ps: PS.ProcessSet, m: Message, draws: seq<int>, initDraws: seq<int>)
    requires 0 <= ps.self < PS.Size(ps) && s.fanout >= PS.Size(ps)
    requires forall x :: x in draws ==> 0 <= x < PS.Size(ps)
    ensures Broadcast(HandleAsWritten(s, ProcessInit(ps), initDraws).value.s, m, draws).None?
  {
    var s1 := HandleAsWritten(s, ProcessInit(ps), initDraws).value.s;
    AsWrittenClampNeverPicks(draws, s.fanout, PS.Size(ps), ps.self);
    assert s1.fanout == PS.Size(ps) && s1.processes == Some(ps);
  }
}
