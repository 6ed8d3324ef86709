/**
 * Hierarchical (regular) consensus over a perfect failure detector. Rounds
 * are ranks: in round `r` the process of rank `r` decides its proposal and
 * broadcasts it; a process adopts a broadcast decision from a lower rank
 * newer than the one it last adopted. A round ends when its leader is
 * suspected or its decision delivered; after the last round the algorithm
 * starts over. The suspected set survives the restart.
 */
module HierarchicalConsensus {
  import opened Common
  import PS = ProcessSet
  import opened Stack

  /**
   * `broadcast` and `delivered` are `None` (`null`) until the first
   * ProcessInit; `proposal` is `None` while there is none.
   */
  datatype State = State(
    round: int,
    propRound: int,
    processes: Option<PS.ProcessSet>,
    suspected: set<int>,
    broadcast: Option<seq<bool>>,
    delivered: Option<seq<bool>>,
    proposal: Option<Payload>)

  datatype Event =
    | ProcessInit(ps: PS.ProcessSet)
    | Crash(p: int)
    | Propose(value: Option<Payload>)
    | Decided(m: Message)
    | Other

  /** `Pass`: the event goes on; `Decide(v)`: the decision, up; `Broadcast(m)`: the DecidedEvent, down. */
  datatype Out = Pass | Decide(v: Payload) | Broadcast(m: Message)

  datatype Step = Step(s: State, out: seq<Out>, raised: bool)

  /** The fields as constructed. */
  function Init(): (s: State)
    ensures s.round == -1 && s.propRound == -1 && s.processes.None? && s.suspected == {}
    ensures s.broadcast.None? && s.delivered.None? && s.proposal.None?
  {
    State(-1, -1, None, {}, None, None, None)
  }

  /**
   * `init`: round 0, no proposal, no adopted round, one cleared flag per
   * process in each array; the suspected set and the process set stay.
   */
  function Restart(s: State): (r: State)
    requires s.processes.Some?
    ensures r.round == 0 && r.propRound == -1 && r.proposal.None?
    ensures r.suspected == s.suspected && r.processes == s.processes
    ensures var n := PS.Size(s.processes.value);
      && r.broadcast.Some? && |r.broadcast.value| == n && (forall i :: 0 <= i < n ==> !r.broadcast.value[i])
      && r.delivered.Some? && |r.delivered.value| == n && (forall i :: 0 <= i < n ==> !r.delivered.value[i])
  {
    var n := PS.Size(s.processes.value);
    s.(round := 0, proposal := None, propRound := -1,
       delivered := Some(seq(n, _ => false)), broadcast := Some(seq(n, _ => false)))
  }

  /** A Java `boolean[]` read: `None` when the array is `null` or the index out of range (the read raises). */
  function At(a: Option<seq<bool>>, i: int): (r: Option<bool>)
    ensures r.Some? <==> a.Some? && 0 <= i < |a.value|
    ensures r.Some? ==> r.value == a.value[i]
  {
    if a.Some? && 0 <= i < |a.value| then Some(a.value[i]) else None
  }

  /** A DecidedEvent: the proposal, then the round on top. */
  function DecidedFrame(v: Payload, round: int): Message
  {
    Push(Push([], ValItem(Some(v))), IntItem(round))
  }

  /** The receiving side: round, then proposal. */
  function ParseDecided(m: Message): (r: Option<(int, Option<Payload>)>)
    ensures r.Some? ==> |m| >= 2 && m[|m| - 1] == IntItem(r.value.0) && m[|m| - 2] == ValItem(r.value.1)
  {
    match PopInt(m)
    case None => None
    case Some((round, m1)) =>
      match Pop(m1)
      case Some((ValItem(v), _)) => Some((round, v))
      case _ => None
  }

  lemma DecidedRoundTrip(v: Payload, round: int)
    ensures ParseDecided(DecidedFrame(v, round)) == Some((round, Some(v)))
  {
    PopIntPush(Push([], ValItem(Some(v))), round);
    PopPush([], ValItem(Some(v)));
  }

  /**
   * `decide`: the leader of the current round that has a proposal and has
   * not yet broadcast in this round decides it and broadcasts it, once.
   */
  function DecideStep(s: State): (r: Step)
    ensures r.raised <==>
      || At(s.broadcast, s.round).None?
      || (!At(s.broadcast, s.round).value && s.proposal.Some? && s.processes.None?)
    ensures r.raised ==> r.s == s && r.out == []
    ensures !r.raised && r.out != [] ==>
      && At(s.broadcast, s.round) == Some(false) && s.proposal.Some? && s.round == s.processes.value.self
      && r.out == [Decide(s.proposal.value), Broadcast(DecidedFrame(s.proposal.value, s.round))]
      && r.s == s.(broadcast := Some(s.broadcast.value[s.round := true]))
    ensures !r.raised && r.out == [] ==> r.s == s
    ensures !r.raised && At(s.broadcast, s.round) == Some(false) && s.proposal.Some? && s.round == s.processes.value.self ==>
      r.out != []
  {
    match At(s.broadcast, s.round)
    case None => Step(s, [], true)
    case Some(b) =>
      if b || s.proposal.None? then Step(s, [], false)
      else if s.processes.None? then Step(s, [], true)
      else if s.round != s.processes.value.self then Step(s, [], false)
      else
        var v := s.proposal.value;
        Step(s.(broadcast := Some(s.broadcast.value[s.round := true])),
             [Decide(v), Broadcast(DecidedFrame(v, s.round))], false)
  }

  /**
   * `suspected_or_delivered`: move past the current round when its leader
   * is suspected or its decision delivered, and start over after the last
   * round.
   */
  function Advance(s: State): (r: Step)
    ensures r.out == [] && r.s.suspected == s.suspected && r.s.processes == s.processes
    ensures !r.raised ==>
      || (r.s.round == s.round + 1 && r.s.(round := s.round) == s)
      || r.s == s
      || (s.processes.Some? && r.s == Restart(s))
  {
    var moved :=
      if s.round in s.suspected then Some(true)
      else At(s.delivered, s.round);
    match moved
    case None => Step(s, [], true)
    case Some(adv) =>
      var s1 := if adv then s.(round := s.round + 1) else s;
      if s1.delivered.None? then Step(s1, [], true)
      else if s1.round >= |s1.delivered.value| then
        if s1.processes.None? then Step(s1, [], true) else Step(Restart(s1), [], false)
      else Step(s1, [], false)
  }

  /**
   * The advance as the rule of the algorithm states it: keep moving while
   * the leader of the current round is suspected or its decision delivered.
   * A restart happens at most once per call, so that a process that
   * suspects every rank does not cycle for ever.
   */
  function AdvanceLoop(s: State, mayRestart: bool): (r: Step)
    ensures r.out == [] && r.s.suspected == s.suspected && r.s.processes == s.processes
    decreases mayRestart, if s.delivered.Some? then |s.delivered.value| - s.round else 0
  {
    var a := Advance(s);
    if a.raised || a.s == s then a
    else if a.s.delivered == s.delivered && s.delivered.Some? && s.round < a.s.round < |s.delivered.value| then
      AdvanceLoop(a.s, mayRestart)
    else if mayRestart then AdvanceLoop(a.s, false)
    else a
  }

  function AdvanceAll(s: State): (r: Step)
  {
    AdvanceLoop(s, true)
  }

  /** Two steps in sequence; a raise in the first skips the second. */
  function Then(a: Step, b: State -> Step): (r: Step)
    ensures a.raised ==> r == a
    ensures !a.raised ==> r == Step(b(a.s).s, a.out + b(a.s).out, b(a.s).raised)
  {
    if a.raised then a else var c := b(a.s); Step(c.s, a.out + c.out, c.raised)
  }

  /** An advance that emits nothing, as both versions of the advance do. */
  ghost predicate Silent(adv: State -> Step)
  {
    forall t :: adv(t).out == []
  }

  /** `handleProcessInit`: keep the process set and start the algorithm in round 0; the suspicions stay. */
  function OnProcessInit(s: State, ps: PS.ProcessSet): (r: Step)
    ensures !r.raised && r.out == [Pass]
    ensures r.s.round == 0 && r.s.processes == Some(ps) && r.s.suspected == s.suspected && r.s.proposal.None?
    ensures Valid(r.s) <==> PS.Size(ps) > 0
  {
    Step(Restart(s.(processes := Some(ps))), [Pass], false)
  }

  /**
   * `handleCrash`: mark the process crashed and suspected, pass the event
   * on, advance (with `adv`), decide.
   */
  function OnCrash(s: State, p: int, adv: State -> Step): (r: Step)
    ensures s.processes.None? || PS.MarkCrashed(s.processes.value, p).None? ==> r == Step(s, [], true)
    ensures !r.raised ==> |r.out| >= 1 && r.out[0] == Pass
    ensures Silent(adv) ==> DecisionsProposed(r)
  {
    if s.processes.None? then Step(s, [], true)
    else
      match PS.MarkCrashed(s.processes.value, p)
      case None => Step(s, [], true)
      case Some(ps) =>
        var s1 := s.(processes := Some(ps), suspected := s.suspected + {p});
        var a := Then(Step(s1, [Pass], false), adv);
        ThenDecideProposed(a);
        Then(a, DecideStep)
  }

  /** `handleConsensusPropose`: only the first proposal counts. */
  function OnPropose(s: State, v: Option<Payload>): (r: Step)
    ensures s.proposal.Some? ==> r == Step(s, [], false)
    ensures DecisionsProposed(r)
  {
    if s.proposal.Some? then Step(s, [], false)
    else DecideStepProposed(s.(proposal := v)); DecideStep(s.(proposal := v))
  }

  /**
   * Adopting a decision of round `r`: only from a lower rank, and only when
   * newer than the one adopted last.
   */
  function Adopt(s: State, r: int, v: Option<Payload>, self: int): (t: State)
    ensures t.(proposal := s.proposal, propRound := s.propRound) == s
    ensures (r < self && r > s.propRound) ==> t.proposal == v && t.propRound == r
    ensures !(r < self && r > s.propRound) ==> t == s
    ensures t.propRound >= s.propRound
  {
    if r < self && r > s.propRound then s.(proposal := v, propRound := r) else s
  }

  /** `handleDecided`: adopt, mark the round delivered, advance (with `adv`), decide. */
  function OnDecided(s: State, m: Message, adv: State -> Step): (r: Step)
    ensures ParseDecided(m).None? || s.processes.None? ==> r == Step(s, [], true)
    ensures ParseDecided(m).Some? && s.processes.Some? && At(s.delivered, ParseDecided(m).value.0).None? ==>
      r.raised && r.out == [] && r.s == Adopt(s, ParseDecided(m).value.0, ParseDecided(m).value.1, s.processes.value.self)
    ensures Silent(adv) ==> DecisionsProposed(r)
  {
    match ParseDecided(m)
    case None => Step(s, [], true)
    case Some((rd, v)) =>
      if s.processes.None? then Step(s, [], true)
      else
        var s1 := Adopt(s, rd, v, s.processes.value.self);
        if At(s1.delivered, rd).None? then Step(s1, [], true)
        else
          var s2 := s1.(delivered := Some(s1.delivered.value[rd := true]));
          var a := Then(Step(s2, [], false), adv);
          ThenDecideProposed(a);
          Then(a, DecideStep)
  }

  /**
   * `handle`, with the advance as a parameter: with an advance that emits
   * nothing, every decision is the proposal held, in the leader's own
   * round, with the round's broadcast flag set; a second proposal is ignored.
   */
  function HandleWith(s: State, e: Event, adv: State -> Step): (r: Step)
    ensures Silent(adv) ==> DecisionsProposed(r)
    ensures e.Propose? && s.proposal.Some? ==> r == Step(s, [], false)
  {
    match e
    case ProcessInit(ps) => OnProcessInit(s, ps)
    case Crash(p) => OnCrash(s, p, adv)
    case Propose(v) => OnPropose(s, v)
    case Decided(m) => OnDecided(s, m, adv)
    case Other => Step(s, [Pass], false)
  }

  /**
   * `handle` as written: one step of advance per event. Suspicions are
   * never withdrawn, a crashed process is suspected from then on, and every
   * decision is the proposal held.
   */
  function HandleAsWritten(s: State, e: Event): (r: Step)
    ensures s.suspected <= r.s.suspected
    ensures e.Crash? && !r.raised ==> e.p in r.s.suspected
    ensures DecisionsProposed(r)
  {
    HandleWith(s, e, Advance)
  }

  /**
   * `handle` with the advance of the algorithm's rule; the same guarantees
   * as the code as written.
   */
  function Handle(s: State, e: Event): (r: Step)
    ensures s.suspected <= r.s.suspected
    ensures e.Crash? && !r.raised ==> e.p in r.s.suspected
    ensures DecisionsProposed(r)
  {
    HandleWith(s, e, AdvanceAll)
  }

  /**
   * The state after a ProcessInit with at least one process: the arrays
   * have one flag per process and the round is one of them.
   */
  predicate Valid(s: State)
  {
    && s.processes.Some? && PS.Size(s.processes.value) > 0
    && s.broadcast.Some? && |s.broadcast.value| == PS.Size(s.processes.value)
    && s.delivered.Some? && |s.delivered.value| == PS.Size(s.processes.value)
    && 0 <= s.round < PS.Size(s.processes.value)
  }

  /**
   * As written, rounds stay in range and move by at most one per event:
   * from a valid state every event but a malformed DecidedEvent (or one for
   * a round out of range) or an unknown crashed rank is handled without a
   * raise, the state stays valid, and the round moves forward by one or
   * starts over at 0.
   */
  lemma AsWrittenRoundsStepByOne(s: State, e: Event)
    requires Valid(s) && (e.ProcessInit? ==> PS.Size(e.ps) > 0)
    ensures var r := HandleAsWritten(s, e);
      && (!r.raised ==> Valid(r.s))
      && (!r.raised ==> r.s.round == s.round || r.s.round == s.round + 1 || r.s.round == 0)
      && (e.Propose? || e.Other? || e.ProcessInit? ==> !r.raised)
      && (e.Crash? ==> (r.raised <==> PS.MarkCrashed(s.processes.value, e.p).None?))
      && (e.Decided? ==> (r.raised <==> ParseDecided(e.m).None? || !(0 <= ParseDecided(e.m).value.0 < PS.Size(s.processes.value))))
  {
    match e
    case ProcessInit(ps) =>
    case Crash(p) =>
      CrashStepsByOne(s, p);
    case Propose(v) =>
    case Decided(m) =>
      DecidedStepsByOne(s, m);
    case Other =>
  }

  lemma CrashStepsByOne(s: State, p: int)
    requires Valid(s)
    ensures var r := OnCrash(s, p, Advance);
      && (r.raised <==> PS.MarkCrashed(s.processes.value, p).None?)
      && (!r.raised ==> Valid(r.s) && (r.s.round == s.round || r.s.round == s.round + 1 || r.s.round == 0))
  {
    if PS.MarkCrashed(s.processes.value, p).Some? {
      var s1 := s.(processes := PS.MarkCrashed(s.processes.value, p), suspected := s.suspected + {p});
      AdvanceThenDecide(s1, [Pass]);
    }
  }

  lemma DecidedStepsByOne(s: State, m: Message)
    requires Valid(s)
    ensures var r := OnDecided(s, m, Advance);
      && (r.raised <==> ParseDecided(m).None? || !(0 <= ParseDecided(m).value.0 < PS.Size(s.processes.value)))
      && (!r.raised ==> Valid(r.s) && (r.s.round == s.round || r.s.round == s.round + 1 || r.s.round == 0))
  {
    if ParseDecided(m).Some? && 0 <= ParseDecided(m).value.0 < PS.Size(s.processes.value) {
      var (rd, v) := ParseDecided(m).value;
      var s1 := Adopt(s, rd, v, s.processes.value.self);
      var s2 := s1.(delivered := Some(s1.delivered.value[rd := true]));
      AdvanceThenDecide(s2, []);
    }
  }

  /** One step of advance then a decision, from a valid state. */
  lemma AdvanceThenDecide(s: State, pre: seq<Out>)
    requires Valid(s)
    ensures var r := Then(Then(Step(s, pre, false), Advance), DecideStep);
      !r.raised && Valid(r.s) && (r.s.round == s.round || r.s.round == s.round + 1 || r.s.round == 0)
  {
    AdvanceValid(s);
  }

  lemma AdvanceValid(s: State)
    requires Valid(s)
    ensures var r := Advance(s);
      && !r.raised && Valid(r.s)
      && (s.round in s.suspected || s.delivered.value[s.round] ==>
           || (s.round + 1 < PS.Size(s.processes.value) && r.s == s.(round := s.round + 1))
           || (s.round + 1 == PS.Size(s.processes.value) && r.s == Restart(s)))
      && (s.round !in s.suspected && !s.delivered.value[s.round] ==> r.s == s)
  {
  }

  /** The leader of the current round is neither suspected nor delivered. */
  predicate Settled(s: State)
  {
    Valid(s) && s.round !in s.suspected && !s.delivered.value[s.round]
  }

  /**
   * The loop ends with the round settled, unless every rank is suspected;
   * after a restart (`!mayRestart`) every decision flag is clear and every
   * round passed is suspected.
   */
  lemma {:induction false} AdvanceLoopSettles(s: State, mayRestart: bool)
    requires Valid(s)
    requires !mayRestart ==>
      && (forall i :: 0 <= i < |s.delivered.value| ==> !s.delivered.value[i])
      && (forall i :: 0 <= i < s.round ==> i in s.suspected)
    ensures var r := AdvanceLoop(s, mayRestart);
      && !r.raised && Valid(r.s)
      && (Settled(r.s) || forall i :: 0 <= i < PS.Size(s.processes.value) ==> i in s.suspected)
    decreases mayRestart, |s.delivered.value| - s.round
  {
    var a := Advance(s);
    AdvanceValid(s);
    var n := PS.Size(s.processes.value);
    var cond := s.round in s.suspected || s.delivered.value[s.round];
    if !cond {
    } else if s.round + 1 < n {
      AdvanceLoopSettles(a.s, mayRestart);
    } else if a.s == s {
      assert !s.delivered.value[s.round] by {
        assert s.delivered == Restart(s).delivered;
      }
      forall i | 0 <= i < n
        ensures i in s.suspected
      {
      }
    } else if mayRestart {
      AdvanceLoopSettles(a.s, false);
    } else {
      forall i | 0 <= i < n
        ensures i in s.suspected
      {
      }
    }
  }

  /**
   * With the advance of the algorithm's rule, rounds stay in range and,
   * after a crash or a decision, the current round's leader is neither
   * suspected nor delivered unless every rank is suspected.
   */
  lemma RoundsSettle(s: State, e: Event)
    requires Valid(s) && (e.ProcessInit? ==> PS.Size(e.ps) > 0)
    ensures var r := Handle(s, e);
      && (!r.raised ==> Valid(r.s))
      && (e.Propose? || e.Other? || e.ProcessInit? ==> !r.raised)
      && (e.Crash? ==> (r.raised <==> PS.MarkCrashed(s.processes.value, e.p).None?))
      && (e.Decided? ==> (r.raised <==> ParseDecided(e.m).None? || !(0 <= ParseDecided(e.m).value.0 < PS.Size(s.processes.value))))
      && ((e.Crash? || e.Decided?) && !r.raised ==>
           Settled(r.s) || forall i :: 0 <= i < PS.Size(s.processes.value) ==> i in r.s.suspected)
  {
    match e
    case ProcessInit(ps) =>
    case Crash(p) =>
      CrashSettles(s, p);
    case Propose(v) =>
    case Decided(m) =>
      DecidedSettles(s, m);
    case Other =>
  }

  lemma CrashSettles(s: State, p: int)
    requires Valid(s)
    ensures var r := OnCrash(s, p, AdvanceAll);
      && (r.raised <==> PS.MarkCrashed(s.processes.value, p).None?)
      && (!r.raised ==> Valid(r.s) && (Settled(r.s) || forall i :: 0 <= i < PS.Size(s.processes.value) ==> i in r.s.suspected))
  {
    if PS.MarkCrashed(s.processes.value, p).Some? {
      var s1 := s.(processes := PS.MarkCrashed(s.processes.value, p), suspected := s.suspected + {p});
      AdvanceLoopSettles(s1, true);
    }
  }

  lemma DecidedSettles(s: State, m: Message)
    requires Valid(s)
    ensures var r := OnDecided(s, m, AdvanceAll);
      && (r.raised <==> ParseDecided(m).None? || !(0 <= ParseDecided(m).value.0 < PS.Size(s.processes.value)))
      && (!r.raised ==> Valid(r.s) && (Settled(r.s) || forall i :: 0 <= i < PS.Size(s.processes.value) ==> i in r.s.suspected))
  {
    if ParseDecided(m).Some? && 0 <= ParseDecided(m).value.0 < PS.Size(s.processes.value) {
      var (rd, v) := ParseDecided(m).value;
      var s1 := Adopt(s, rd, v, s.processes.value.self);
      var s2 := s1.(delivered := Some(s1.delivered.value[rd := true]));
      AdvanceLoopSettles(s2, true);
    }
  }

  /**
   * As written, the process of rank 2 stalls when the crash of rank 1 is
   * reported before the crash of rank 0: the second report moves the round
   * to 1 only, whose leader is already suspected, and no event that can
   * still arrive moves it on, so rank 2 never decides its proposal.
   */
  lemma AsWrittenStallsOnCrashOrder()
    ensures var s0 := OnProcessInit(Init(), PS.ThreeCorrect()).s;
      var s1 := HandleAsWritten(s0, Propose(Some([7]))).s;
      var c1 := HandleAsWritten(s1, Crash(1));
      var c2 := HandleAsWritten(c1.s, Crash(0));
      && !c2.raised && c2.s.round == 1 && 1 in c2.s.suspected
      && (forall i :: 0 <= i < |c1.out| ==> !c1.out[i].Decide?)
      && (forall i :: 0 <= i < |c2.out| ==> !c2.out[i].Decide?)
      && HandleAsWritten(c2.s, Propose(Some([8]))) == Step(c2.s, [], false)
  {
    var s0 := OnProcessInit(Init(), PS.ThreeCorrect()).s;
    var s1 := HandleAsWritten(s0, Propose(Some([7]))).s;
    assert s1 == s0.(proposal := Some([7]));
    var c1 := HandleAsWritten(s1, Crash(1));
    var m1 := PS.MarkCrashed(PS.ThreeCorrect(), 1).value;
    var t1 := s1.(processes := Some(m1), suspected := {1});
    assert Advance(t1) == Step(t1, [], false);
    assert c1.s == t1 && c1.out == [Pass];
    var c2 := HandleAsWritten(c1.s, Crash(0));
    var m2 := PS.MarkCrashed(m1, 0).value;
    var t2 := t1.(processes := Some(m2), suspected := {1, 0});
    assert Advance(t2) == Step(t2.(round := 1), [], false);
    assert c2.s == t2.(round := 1) && c2.out == [Pass];
  }

  /** With the advance of the algorithm's rule, the same reports make rank 2 decide. */
  lemma DecidesOnCrashOrder()
    ensures var s0 := OnProcessInit(Init(), PS.ThreeCorrect()).s;
      var s1 := Handle(s0, Propose(Some([7]))).s;
      var c2 := Handle(Handle(s1, Crash(1)).s, Crash(0));
      !c2.raised && c2.s.round == 2 && Decide([7]) in c2.out
  {
    ProposedReached();
    Crash1Waits();
    Crash0Decides();
  }

  /** The states of the run above: after the proposal, after the crash of rank 1, once the crash of rank 0 is recorded. */
  function Proposed(): State
  {
    OnProcessInit(Init(), PS.ThreeCorrect()).s.(proposal := Some([7]))
  }

  function AfterCrash1(): State
  {
    Proposed().(processes := PS.MarkCrashed(PS.ThreeCorrect(), 1), suspected := {1})
  }

  function Crash0Recorded(): State
  {
    AfterCrash1().(processes := PS.MarkCrashed(AfterCrash1().processes.value, 0), suspected := {1, 0})
  }

  lemma ProposedReached()
    ensures Handle(OnProcessInit(Init(), PS.ThreeCorrect()).s, Propose(Some([7]))).s == Proposed()
  {
  }

  lemma Crash1Waits()
    ensures Handle(Proposed(), Crash(1)).s == AfterCrash1()
  {
    var t1 := AfterCrash1();
    assert Advance(t1) == Step(t1, [], false);
    assert AdvanceLoop(t1, true) == Step(t1, [], false);
  }

  /** From the recorded crash of rank 0, the advance passes rounds 0 and 1 and stops at round 2. */
  lemma Crash0Advances()
    ensures AdvanceLoop(Crash0Recorded(), true) == Step(Crash0Recorded().(round := 2), [], false)
  {
    var t2 := Crash0Recorded();
    assert Advance(t2) == Step(t2.(round := 1), [], false);
    assert Advance(t2.(round := 1)) == Step(t2.(round := 2), [], false);
    assert Advance(t2.(round := 2)) == Step(t2.(round := 2), [], false);
  }

  lemma Crash0Decides()
    ensures var c2 := Handle(AfterCrash1(), Crash(0));
      !c2.raised && c2.s.round == 2 && Decide([7]) in c2.out
  {
    var t1 := AfterCrash1();
    var t2 := Crash0Recorded();
    Crash0Advances();
    var d := DecideStep(t2.(round := 2));
    assert d.out == [Decide([7]), Broadcast(DecidedFrame([7], 2))];
    var c2 := Handle(t1, Crash(0));
    var a := Then(Step(t2, [Pass], false), AdvanceAll);
    assert a == Step(t2.(round := 2), [Pass], false);
    assert c2 == OnCrash(t1, 0, AdvanceAll);
    assert t1.(processes := PS.MarkCrashed(t1.processes.value, 0), suspected := t1.suspected + {0}) == t2;
    assert c2 == Then(a, DecideStep);
    assert c2.out == [Pass] + d.out;
  }

  /**
   * A leader decides once per round: a decision sets the round's broadcast
   * flag, after which deciding again in the same round emits nothing.
   */
  lemma DecidesOncePerRound(s: State)
    requires DecideStep(s).out != []
    ensures DecideStep(DecideStep(s).s) == Step(DecideStep(s).s, [], false)
  {
  }

  /**
   * What is decided is the proposal held: every Decide a handler emits
   * carries the final proposal of the step, in the leader's own round.
   */
  lemma DecisionIsProposal(s: State, e: Event)
    ensures var r := Handle(s, e);
      forall i :: 0 <= i < |r.out| && r.out[i].Decide? ==>
        r.s.proposal == Some(r.out[i].v) && r.s.processes.Some? && r.s.round == r.s.processes.value.self
        && At(r.s.broadcast, r.s.round) == Some(true)
  {
    match e
    case ProcessInit(ps) =>
    case Crash(p) =>
      if s.processes.Some? && PS.MarkCrashed(s.processes.value, p).Some? {
        var s1 := s.(processes := PS.MarkCrashed(s.processes.value, p), suspected := s.suspected + {p});
        ThenDecideProposed(Then(Step(s1, [Pass], false), AdvanceAll));
      }
    case Propose(v) =>
      if s.proposal.None? {
        DecideStepProposed(s.(proposal := v));
      }
    case Decided(m) =>
      if ParseDecided(m).Some? && s.processes.Some? {
        var (rd, v) := ParseDecided(m).value;
        var s1 := Adopt(s, rd, v, s.processes.value.self);
        if At(s1.delivered, rd).Some? {
          var s2 := s1.(delivered := Some(s1.delivered.value[rd := true]));
          ThenDecideProposed(Then(Step(s2, [], false), AdvanceAll));
        }
      }
    case Other =>
  }

  /** Every decision in `r` is the proposal of the round whose leader has broadcast it. */
  predicate DecisionsProposed(r: Step)
  {
    forall i :: 0 <= i < |r.out| && r.out[i].Decide? ==>
      r.s.proposal == Some(r.out[i].v) && r.s.processes.Some? && r.s.round == r.s.processes.value.self
      && At(r.s.broadcast, r.s.round) == Some(true)
  }

  lemma DecideStepProposed(s: State)
    ensures DecisionsProposed(DecideStep(s))
  {
  }

  /** A decision step after one that decided nothing decides only the proposal. */
  lemma ThenDecideProposed(a: Step)
    ensures (forall i :: 0 <= i < |a.out| ==> !a.out[i].Decide?) ==> DecisionsProposed(Then(a, DecideStep))
  {
    if !a.raised && forall i :: 0 <= i < |a.out| ==> !a.out[i].Decide? {
      var d := DecideStep(a.s);
      DecideStepProposed(a.s);
      var r := Then(a, DecideStep);
      assert r.out == a.out + d.out;
      forall i | 0 <= i < |r.out| && r.out[i].Decide?
        ensures i >= |a.out| && r.out[i] == d.out[i - |a.out|]
      {
      }
    }
  }

  /**
   * The adoption rule keeps the decision of the highest lower round seen,
   * whatever the order in which decisions arrive.
   */
  lemma AdoptKeepsHighest(s: State, r1: int, v1: Option<Payload>, r2: int, v2: Option<Payload>, self: int)
    requires r1 < r2 < self && s.propRound < r1
    ensures var a := Adopt(Adopt(s, r1, v1, self), r2, v2, self);
      var b := Adopt(Adopt(s, r2, v2, self), r1, v1, self);
      a == b && a.proposal == v2 && a.propRound == r2
  {
  }
}
