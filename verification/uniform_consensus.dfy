/**
 * Uniform hierarchical consensus over a perfect failure detector. Rounds are
 * ranks: in round `r` the process of rank `r` proposes its value to all;
 * every process acknowledges a proposal by recording its sender and adopts
 * it when it comes from a lower rank newer than the one adopted last. A
 * process leaves a round once its leader is suspected or has proposed; when
 * every process is suspected or has proposed, it broadcasts its proposal as
 * the decision, reliably. The first decision delivered is output; once as
 * many decisions have arrived as there are correct processes, the instance
 * starts over. The suspected set survives the restart.
 */
module UniformConsensus {
  import opened Common
  import PS = ProcessSet
  import opened Stack

  /**
   * `proposal` and `decided` are `None` while `null`; `ackSet` holds the ranks
   * of the senders of the proposals received in this instance.
   */
  datatype State = State(
    proposal: Option<Payload>,
    decided: Option<Payload>,
    round: int,
    suspected: set<int>,
    ackSet: set<int>,
    propRound: int,
    processes: Option<PS.ProcessSet>,
    countDecided: int)

  datatype Event =
    | ChannelInit
    | ProcessInit(ps: PS.ProcessSet)
    | Crash(p: int)
    | Propose(value: Option<Payload>)
    | ProposeEvent(source: Addr, m: Message)
    | Decided(m: Message)
    | Other

  /**
   * `Pass`: the event goes on; `SendPropose(m)`: a ProposeEvent to all;
   * `SendDecided(m)`: a DecidedEvent down the reliable broadcast;
   * `Decide(v)`: the decision, up.
   */
  datatype Out = Pass | SendPropose(m: Message) | SendDecided(m: Message) | Decide(v: Option<Payload>)

  datatype Step = Step(s: State, out: seq<Out>, raised: bool)

  /** The fields as constructed. */
  function Init(): (s: State)
    ensures s.round == -1 && s.propRound == -1 && s.countDecided == 0
    ensures s.proposal.None? && s.decided.None? && s.processes.None?
    ensures s.suspected == {} && s.ackSet == {}
  {
    State(None, None, -1, {}, {}, -1, None, 0)
  }

  /** `init`: a fresh instance from round 0; the suspected set and the process set stay. */
  function Restart(s: State): (r: State)
    ensures r.round == 0 && r.propRound == -1 && r.countDecided == 0
    ensures r.proposal.None? && r.decided.None? && r.ackSet == {}
    ensures r.suspected == s.suspected && r.processes == s.processes
  {
    s.(proposal := None, decided := None, round := 0, ackSet := {}, propRound := -1, countDecided := 0)
  }

  /** A ProposeEvent: the proposal, then the round on top. */
  function ProposeFrame(v: Option<Payload>, round: int): Message
  {
    Push(Push([], ValItem(v)), IntItem(round))
  }

  /** The receiving side: round, then proposal. */
  function ParsePropose(m: Message): (r: Option<(int, Option<Payload>)>)
    ensures r.Some? ==> |m| >= 2 && m[|m| - 1] == IntItem(r.value.0) && m[|m| - 2] == ValItem(r.value.1)
  {
    match PopInt(m)
    case None => None
    case Some((round, m1)) =>
      match Pop(m1)
      case Some((ValItem(v), _)) => Some((round, v))
      case _ => None
  }

  lemma ProposeRoundTrip(v: Option<Payload>, round: int)
    ensures ParsePropose(ProposeFrame(v, round)) == Some((round, v))
  {
    PopIntPush(Push([], ValItem(v)), round);
    PopPush([], ValItem(v));
  }

  /** A DecidedEvent carries the proposal alone. */
  function DecidedFrame(v: Option<Payload>): Message
  {
    Push([], ValItem(v))
  }

  function ParseDecided(m: Message): (r: Option<Option<Payload>>)
    ensures r.Some? ==> m != [] && m[|m| - 1] == ValItem(r.value)
  {
    match Pop(m)
    case Some((ValItem(v), _)) => Some(v)
    case _ => None
  }

  lemma DecidedRoundTrip(v: Option<Payload>)
    ensures ParseDecided(DecidedFrame(v)) == Some(v)
  {
    PopPush([], ValItem(v));
  }

  /** The ranks whose round is over: suspected, or heard a proposal from. */
  function Covered(s: State): set<int>
  {
    s.suspected + s.ackSet
  }

  /** `suspected_or_acked` as written: one round forward when the current one is over. */
  function AdvanceOnce(s: State): (r: State)
    ensures r == s.(round := r.round)
    ensures s.round in Covered(s) ==> r.round == s.round + 1
    ensures s.round !in Covered(s) ==> r.round == s.round
  {
    if s.round in Covered(s) then s.(round := s.round + 1) else s
  }

  /** The first round from `round` on that is not over. */
  function SkipFrom(round: int, covered: set<int>): (r: int)
    ensures r >= round && r !in covered
    ensures forall k :: round <= k < r ==> k in covered
    decreases |covered|
  {
    if round in covered then
      var next := SkipFrom(round + 1, covered - {round});
      assert forall k :: round <= k < next ==> k in covered by {
        forall k | round <= k < next
          ensures k in covered
        {
          if k > round {
            assert k in covered - {round};
          }
        }
      }
      next
    else round
  }

  /** The advance as the rule of the algorithm states it: on to the first round that is not over. */
  function AdvanceAll(s: State): (r: State)
    ensures r == s.(round := r.round)
  {
    s.(round := SkipFrom(s.round, Covered(s)))
  }

  /**
   * `propose`: the leader of the current round that has a proposal and no
   * decision sends the proposal with the round.
   */
  function ProposeStep(s: State): (r: Step)
    ensures r.s == s
    ensures r.raised <==> s.decided.None? && s.proposal.Some? && s.processes.None?
    ensures r.out != [] <==> s.decided.None? && s.proposal.Some? && s.processes.Some? && s.round == s.processes.value.self
    ensures r.out != [] ==> r.out == [SendPropose(ProposeFrame(s.proposal, s.round))]
  {
    if s.decided.Some? || s.proposal.None? then Step(s, [], false)
    else if s.processes.None? then Step(s, [], true)
    else if s.round != s.processes.value.self then Step(s, [], false)
    else Step(s, [SendPropose(ProposeFrame(s.proposal, s.round))], false)
  }

  /**
   * The check of `decide` from rank `i` on: every process's number is in
   * `covered`; `None` when an empty slot is reached first (the loop raises).
   */
  function CoveredFrom(ps: PS.ProcessSet, covered: set<int>, i: nat): (r: Option<bool>)
    requires i <= |ps.procs|
    ensures r == Some(true) <==>
      forall j :: i <= j < |ps.procs| ==> ps.procs[j].Some? && ps.procs[j].value.number in covered
    ensures r.None? ==> exists j :: i <= j < |ps.procs| && ps.procs[j].None?
    decreases |ps.procs| - i
  {
    if i == |ps.procs| then Some(true)
    else if ps.procs[i].None? then None
    else if ps.procs[i].value.number !in covered then Some(false)
    else CoveredFrom(ps, covered, i + 1)
  }

  /**
   * `decide`: once every process is suspected or has proposed, broadcast the
   * proposal held as the decision; this happens on every call that finds
   * the condition true.
   */
  function DecideStep(s: State): (r: Step)
    ensures r.s == s
    ensures r.out != [] ==> r.out == [SendDecided(DecidedFrame(s.proposal))]
    ensures r.out != [] <==>
      && s.processes.Some?
      && forall j :: 0 <= j < PS.Size(s.processes.value) ==>
           s.processes.value.procs[j].Some? && s.processes.value.procs[j].value.number in Covered(s)
    ensures r.raised ==> r.out == [] && (s.processes.None? || !PS.Full(s.processes.value))
  {
    if s.processes.None? then Step(s, [], true)
    else
      match CoveredFrom(s.processes.value, Covered(s), 0)
      case None => Step(s, [], true)
      case Some(all) => if all then Step(s, [SendDecided(DecidedFrame(s.proposal))], false) else Step(s, [], false)
  }

  /** Two steps in sequence; a raise in the first skips the second. */
  function Then(a: Step, b: State -> Step): (r: Step)
    ensures a.raised ==> r == a
    ensures !a.raised ==> r == Step(b(a.s).s, a.out + b(a.s).out, b(a.s).raised)
  {
    if a.raised then a else var c := b(a.s); Step(c.s, a.out + c.out, c.raised)
  }

  /** What `handleCrash` and `handleProposeEvent` do last: advance (with `adv`), propose, decide. */
  function Conclude(s: State, pre: seq<Out>, adv: State -> State): (r: Step)
  {
    Then(Then(Step(adv(s), pre, false), ProposeStep), DecideStep)
  }

  /** `handleProcessInit`: keep the process set and start an instance in round 0; the suspicions stay. */
  function OnProcessInit(s: State, ps: PS.ProcessSet): (r: Step)
    ensures !r.raised && r.out == [Pass]
    ensures r.s.round == 0 && r.s.processes == Some(ps) && r.s.suspected == s.suspected
    ensures r.s.proposal.None? && r.s.decided.None? && r.s.ackSet == {} && r.s.countDecided == 0
  {
    Step(Restart(s.(processes := Some(ps))), [Pass], false)
  }

  /** `handleCrash`: mark the process crashed and suspected, pass the event on, conclude. */
  function OnCrash(s: State, p: int, adv: State -> State): (r: Step)
    ensures s.processes.None? || PS.MarkCrashed(s.processes.value, p).None? ==> r == Step(s, [], true)
    ensures s.processes.Some? && PS.MarkCrashed(s.processes.value, p).Some? ==>
      |r.out| >= 1 && r.out[0] == Pass && r.s == adv(s.(processes := PS.MarkCrashed(s.processes.value, p), suspected := s.suspected + {p}))
    ensures DecisionsChecked(r) && ProposalsFromLeader(r)
  {
    if s.processes.None? then Step(s, [], true)
    else
      match PS.MarkCrashed(s.processes.value, p)
      case None => Step(s, [], true)
      case Some(ps) =>
        var s1 := s.(processes := Some(ps), suspected := s.suspected + {p});
        ConcludeChecked(s1, [Pass], adv);
        ConcludeShape(s1, [Pass], adv);
        Conclude(s1, [Pass], adv)
  }

  /** `handleConsensusPropose`: only the first proposal counts. */
  function OnPropose(s: State, v: Option<Payload>): (r: Step)
    ensures s.proposal.Some? ==> r == Step(s, [], false)
    ensures s.proposal.None? ==> r == ProposeStep(s.(proposal := v))
  {
    if s.proposal.Some? then Step(s, [], false)
    else ProposeStep(s.(proposal := v))
  }

  /** Adopting a proposal of round `r`: only from a lower rank, and only when newer than the one adopted last. */
  function Adopt(s: State, r: int, v: Option<Payload>, self: int): (t: State)
    ensures t.(proposal := s.proposal, propRound := s.propRound) == s
    ensures (r < self && r > s.propRound) ==> t.proposal == v && t.propRound == r
    ensures !(r < self && r > s.propRound) ==> t == s
  {
    if r < self && r > s.propRound then s.(proposal := v, propRound := r) else s
  }

  /**
   * `handleProposeEvent`: record the sender's rank (`-1` for an address not
   * in the set), adopt, conclude.
   */
  function OnProposeEvent(s: State, source: Addr, m: Message, adv: State -> State): (r: Step)
    ensures s.processes.None? || ParsePropose(m).None? ==> r == Step(s, [], true)
    ensures s.processes.Some? && ParsePropose(m).Some? ==>
      var ps := s.processes.value;
      r.s == adv(Adopt(s.(ackSet := s.ackSet + {PS.GetRank(ps, source)}), ParsePropose(m).value.0, ParsePropose(m).value.1, ps.self))
    ensures DecisionsChecked(r) && ProposalsFromLeader(r)
  {
    if s.processes.None? then Step(s, [], true)
    else
      var ps := s.processes.value;
      match ParsePropose(m)
      case None => Step(s, [], true)
      case Some((rd, v)) =>
        var s1 := Adopt(s.(ackSet := s.ackSet + {PS.GetRank(ps, source)}), rd, v, ps.self);
        ConcludeChecked(s1, [], adv);
        ConcludeShape(s1, [], adv);
        Conclude(s1, [], adv)
  }

  /**
   * `handleDecided`: count the decision; once as many have arrived as there
   * are correct processes and one was output, start over; otherwise output
   * the first one.
   */
  function OnDecided(s: State, m: Message): (r: Step)
    ensures r.raised <==> s.processes.None? || (s.decided.None? && ParseDecided(m).None?)
    ensures forall i :: 0 <= i < |r.out| ==> r.out[i].Decide? && |r.out| == 1
    ensures r.out != [] ==> s.decided.None? && ParseDecided(m).Some? && r.out[0] == Decide(r.s.decided) && r.s.decided == ParseDecided(m).value
    ensures r.s == Restart(r.s) || r.s.countDecided == s.countDecided + 1
  {
    var s1 := s.(countDecided := s.countDecided + 1);
    if s.processes.None? then Step(s1, [], true)
    else if s1.countDecided >= PS.CorrectCount(s.processes.value) && s.decided.Some? then Step(Restart(s1), [], false)
    else if s.decided.Some? then Step(s1, [], false)
    else
      match ParseDecided(m)
      case None => Step(s1, [], true)
      case Some(v) => Step(s1.(decided := v), [Decide(v)], false)
  }

  /**
   * `handle`, with the advance as a parameter: for any advance, a decision
   * is broadcast only when every process is suspected or has proposed, and
   * a proposal is sent only by the undecided leader of the current round.
   */
  function HandleWith(s: State, e: Event, adv: State -> State): (r: Step)
    ensures DecisionsChecked(r) && ProposalsFromLeader(r)
  {
    match e
    case ChannelInit => Step(s, [Pass], false)
    case ProcessInit(ps) => OnProcessInit(s, ps)
    case Crash(p) => OnCrash(s, p, adv)
    case Propose(v) => OnPropose(s, v)
    case ProposeEvent(source, m) => OnProposeEvent(s, source, m, adv)
    case Decided(m) => OnDecided(s, m)
    case Other => Step(s, [Pass], false)
  }

  /**
   * `handle` as written: one round of advance per event. Suspicions are
   * never withdrawn, and a crashed process is suspected from then on.
   */
  function HandleAsWritten(s: State, e: Event): (r: Step)
    ensures s.suspected <= r.s.suspected
    ensures e.Crash? && !r.raised ==> e.p in r.s.suspected
    ensures DecisionsChecked(r) && ProposalsFromLeader(r)
  {
    HandleWith(s, e, AdvanceOnce)
  }

  /** `handle` with the advance of the algorithm's rule; the same guarantees as the code as written. */
  function Handle(s: State, e: Event): (r: Step)
    ensures s.suspected <= r.s.suspected
    ensures e.Crash? && !r.raised ==> e.p in r.s.suspected
    ensures DecisionsChecked(r) && ProposalsFromLeader(r)
  {
    HandleWith(s, e, AdvanceAll)
  }

  /** The state after a conclusion is the advanced state; the outputs are a proposal and a decision broadcast, in that order. */
  lemma ConcludeShape(s: State, pre: seq<Out>, adv: State -> State)
    ensures var r := Conclude(s, pre, adv);
      && r.s == adv(s)
      && r.out == pre + ProposeStep(adv(s)).out + DecideStep(adv(s)).out
      && (r.raised <==> ProposeStep(adv(s)).raised || DecideStep(adv(s)).raised)
  {
  }

  /**
   * A ProposeEvent from a known process records its sender, adopts the
   * proposal exactly when it comes from a lower rank newer than the one
   * adopted last, and moves the round to the first one not over.
   */
  lemma ProposeEventAcks(s: State, source: Addr, m: Message)
    requires s.processes.Some? && ParsePropose(m).Some?
    ensures var r := Handle(s, ProposeEvent(source, m));
      var (rd, v) := ParsePropose(m).value;
      var adopt := rd < s.processes.value.self && rd > s.propRound;
      && PS.GetRank(s.processes.value, source) in r.s.ackSet
      && r.s.ackSet == s.ackSet + {PS.GetRank(s.processes.value, source)}
      && (adopt ==> r.s.proposal == v && r.s.propRound == rd)
      && (!adopt ==> r.s.proposal == s.proposal && r.s.propRound == s.propRound)
      && r.s.round >= s.round && r.s.round !in Covered(r.s)
      && (forall k :: s.round <= k < r.s.round ==> k in Covered(r.s))
      && r.s.decided == s.decided && r.s.countDecided == s.countDecided
  {
    var ps := s.processes.value;
    var (rd, v) := ParsePropose(m).value;
    var s1 := Adopt(s.(ackSet := s.ackSet + {PS.GetRank(ps, source)}), rd, v, ps.self);
    ConcludeShape(s1, [], AdvanceAll);
  }

  /**
   * As written, the round moves forward by at most one per event, and only
   * out of a round that is over; only a ProcessInit or a restart after the
   * last decision sets it back to 0.
   */
  lemma AsWrittenRoundStepsByOne(s: State, e: Event)
    ensures var r := HandleAsWritten(s, e);
      || r.s.round == s.round
      || (r.s.round == s.round + 1 && s.round in Covered(r.s))
      || (r.s.round == 0 && (e.ProcessInit? || e.Decided?))
  {
    match e
    case Crash(p) =>
      if s.processes.Some? && PS.MarkCrashed(s.processes.value, p).Some? {
        ConcludeShape(s.(processes := PS.MarkCrashed(s.processes.value, p), suspected := s.suspected + {p}), [Pass], AdvanceOnce);
      }
    case ProposeEvent(source, m) =>
      if s.processes.Some? && ParsePropose(m).Some? {
        var ps := s.processes.value;
        var (rd, v) := ParsePropose(m).value;
        ConcludeShape(Adopt(s.(ackSet := s.ackSet + {PS.GetRank(ps, source)}), rd, v, ps.self), [], AdvanceOnce);
      }
    case _ =>
  }

  /**
   * With the advance of the algorithm's rule, a crash report that is
   * handled leaves the process in a round that is not over, every round
   * passed being over.
   */
  lemma CrashSettlesRound(s: State, p: int)
    requires s.processes.Some? && PS.MarkCrashed(s.processes.value, p).Some?
    ensures var r := Handle(s, Crash(p));
      && r.s.suspected == s.suspected + {p}
      && r.s.round >= s.round && r.s.round !in Covered(r.s)
      && (forall k :: s.round <= k < r.s.round ==> k in Covered(r.s))
      && Pass in r.out
  {
    ConcludeShape(s.(processes := PS.MarkCrashed(s.processes.value, p), suspected := s.suspected + {p}), [Pass], AdvanceAll);
  }

  /** Every decision broadcast among the outputs carries the proposal held and follows a check that every round is over. */
  predicate DecisionsChecked(r: Step)
  {
    forall i :: 0 <= i < |r.out| && r.out[i].SendDecided? ==>
      && r.out[i].m == DecidedFrame(r.s.proposal)
      && r.s.processes.Some?
      && forall j :: 0 <= j < PS.Size(r.s.processes.value) ==>
           r.s.processes.value.procs[j].Some? && r.s.processes.value.procs[j].value.number in Covered(r.s)
  }

  /** Every proposal among the outputs comes from the undecided leader of the current round. */
  predicate ProposalsFromLeader(r: Step)
  {
    forall i :: 0 <= i < |r.out| && r.out[i].SendPropose? ==>
      && r.out[i].m == ProposeFrame(r.s.proposal, r.s.round)
      && r.s.proposal.Some? && r.s.decided.None?
      && r.s.processes.Some? && r.s.round == r.s.processes.value.self
  }

  lemma ConcludeChecked(s: State, pre: seq<Out>, adv: State -> State)
    requires forall i :: 0 <= i < |pre| ==> pre[i] == Pass
    ensures DecisionsChecked(Conclude(s, pre, adv)) && ProposalsFromLeader(Conclude(s, pre, adv))
  {
    var r := Conclude(s, pre, adv);
    ConcludeShape(s, pre, adv);
    var p, d := ProposeStep(adv(s)).out, DecideStep(adv(s)).out;
    assert r.out == pre + p + d;
    forall i | 0 <= i < |r.out|
      ensures r.out[i].SendDecided? ==> r.out[i] == SendDecided(DecidedFrame(r.s.proposal)) && d != []
      ensures r.out[i].SendPropose? ==> r.out[i] == SendPropose(ProposeFrame(r.s.proposal, r.s.round)) && p != []
    {
      if i < |pre| {
        assert r.out[i] == pre[i];
      } else if i < |pre| + |p| {
        assert r.out[i] == p[i - |pre|];
      } else {
        assert r.out[i] == d[i - |pre| - |p|];
      }
    }
  }

  lemma CrashChecked(s: State, p: int)
    ensures DecisionsChecked(OnCrash(s, p, AdvanceAll)) && ProposalsFromLeader(OnCrash(s, p, AdvanceAll))
  {
    if s.processes.Some? && PS.MarkCrashed(s.processes.value, p).Some? {
      ConcludeChecked(s.(processes := PS.MarkCrashed(s.processes.value, p), suspected := s.suspected + {p}), [Pass], AdvanceAll);
    }
  }

  lemma ProposeEventChecked(s: State, source: Addr, m: Message)
    ensures DecisionsChecked(OnProposeEvent(s, source, m, AdvanceAll))
    ensures ProposalsFromLeader(OnProposeEvent(s, source, m, AdvanceAll))
  {
    if s.processes.Some? && ParsePropose(m).Some? {
      var ps := s.processes.value;
      var (rd, v) := ParsePropose(m).value;
      ConcludeChecked(Adopt(s.(ackSet := s.ackSet + {PS.GetRank(ps, source)}), rd, v, ps.self), [], AdvanceAll);
    }
  }

  lemma ProposeChecked(s: State, v: Option<Payload>)
    ensures DecisionsChecked(OnPropose(s, v)) && ProposalsFromLeader(OnPropose(s, v))
  {
  }

  /**
   * A decision is broadcast only when every process is suspected or has
   * proposed, and what is broadcast is the proposal held after the step;
   * a proposal is sent only by the undecided leader of the current round,
   * with that round.
   */
  lemma OutputsChecked(s: State, e: Event)
    ensures DecisionsChecked(Handle(s, e)) && ProposalsFromLeader(Handle(s, e))
  {
    match e
    case Crash(p) =>
      CrashChecked(s, p);
    case ProposeEvent(source, m) =>
      ProposeEventChecked(s, source, m);
    case Propose(v) =>
      ProposeChecked(s, v);
    case _ =>
  }

  /**
   * The first decision delivered is output and kept; once a decision is
   * held, a further DecidedEvent outputs nothing and either keeps it or,
   * when as many have arrived as there are correct processes, starts a
   * fresh instance.
   */
  lemma DecidesOnce(s: State, m: Message)
    requires s.processes.Some?
    ensures var r := Handle(s, Decided(m));
      && (s.decided.None? && ParseDecided(m).Some? ==>
            !r.raised && r.out == [Decide(ParseDecided(m).value)] && r.s.decided == ParseDecided(m).value
            && r.s.countDecided == s.countDecided + 1)
      && (s.decided.Some? ==> !r.raised && r.out == [])
      && (s.decided.Some? && s.countDecided + 1 >= PS.CorrectCount(s.processes.value) ==>
            r.s == Restart(s))
      && (s.decided.Some? && s.countDecided + 1 < PS.CorrectCount(s.processes.value) ==>
            r.s == s.(countDecided := s.countDecided + 1))
  {
  }

  /**
   * Starting over needs as many decisions as correct processes: a crash
   * report of a correct process lowers that number by one, so a restart
   * that was one decision away happens on the next decision delivered.
   */
  lemma CrashHastensRestart(s: State, p: int, m: Message)
    requires s.processes.Some? && PS.MarkCrashed(s.processes.value, p).Some? && PS.IsCorrect(s.processes.value, p)
    requires s.decided.Some? && s.countDecided + 2 == PS.CorrectCount(s.processes.value)
    ensures Handle(s, Decided(m)).s.countDecided == s.countDecided + 1
    ensures var t := Handle(s, Crash(p)).s;
      Handle(t, Decided(m)).s == Restart(t)
  {
    PS.CrashLowersCorrectCount(s.processes.value, p);
    ConcludeShape(s.(processes := PS.MarkCrashed(s.processes.value, p), suspected := s.suspected + {p}), [Pass], AdvanceAll);
  }

  /**
   * As written, the process of rank 2 of three stalls when the crash of
   * rank 1 is reported before the crash of rank 0: the second report moves
   * the round to 1 only, whose leader is already suspected, so rank 2 never
   * proposes and never broadcasts a decision, and its own proposal changes
   * nothing afterwards.
   */
  lemma AsWrittenStallsOnCrashOrder()
    ensures var s0 := OnProcessInit(Init(), PS.ThreeCorrect()).s;
      var s1 := HandleAsWritten(s0, Propose(Some([7]))).s;
      var c1 := HandleAsWritten(s1, Crash(1));
      var c2 := HandleAsWritten(c1.s, Crash(0));
      && !c2.raised && c2.s.round == 1 && 1 in c2.s.suspected
      && c1.out == [Pass] && c2.out == [Pass]
      && HandleAsWritten(c2.s, Propose(Some([8]))) == Step(c2.s, [], false)
  {
    AsWrittenProposedReached();
    AsWrittenCrash1Waits();
    AsWrittenCrash0Stalls();
    AsWrittenProposalIgnored();
  }

  /** The state the advance as written reaches after both crash reports: round 1, whose leader is suspected. */
  function StalledAsWritten(): State
  {
    AfterCrash0().(round := 1)
  }

  lemma AsWrittenProposedReached()
    ensures HandleAsWritten(OnProcessInit(Init(), PS.ThreeCorrect()).s, Propose(Some([7]))).s == Proposed()
  {
  }

  lemma AsWrittenCrash1Waits()
    ensures HandleAsWritten(Proposed(), Crash(1)) == Step(AfterCrash1(), [Pass], false)
  {
    var t1 := AfterCrash1();
    ConcludeShape(t1, [Pass], AdvanceOnce);
    assert CoveredFrom(t1.processes.value, {1}, 0) == Some(false);
    assert HandleAsWritten(Proposed(), Crash(1)) == Conclude(t1, [Pass], AdvanceOnce);
  }

  lemma AsWrittenCrash0Stalls()
    ensures HandleAsWritten(AfterCrash1(), Crash(0)) == Step(StalledAsWritten(), [Pass], false)
  {
    var t1 := AfterCrash1();
    var m2 := PS.MarkCrashed(t1.processes.value, 0).value;
    var t2 := t1.(processes := Some(m2), suspected := {1, 0});
    ConcludeShape(t2, [Pass], AdvanceOnce);
    assert AdvanceOnce(t2) == StalledAsWritten();
    assert CoveredFrom(m2, {1, 0}, 0) == Some(false) by {
      assert m2.procs[2].value.number == 2;
    }
    assert t1.(processes := Some(m2), suspected := t1.suspected + {0}) == t2;
    assert HandleAsWritten(t1, Crash(0)) == Conclude(t2, [Pass], AdvanceOnce);
  }

  lemma AsWrittenProposalIgnored()
    ensures HandleAsWritten(StalledAsWritten(), Propose(Some([8]))) == Step(StalledAsWritten(), [], false)
  {
  }

  /** The states of the run below: after the proposal, after the crash of rank 1, after the crash of rank 0. */
  function Proposed(): State
  {
    Restart(Init().(processes := Some(PS.ThreeCorrect()))).(proposal := Some([7]))
  }

  function AfterCrash1(): State
  {
    Proposed().(processes := PS.MarkCrashed(PS.ThreeCorrect(), 1), suspected := {1})
  }

  function AfterCrash0(): State
  {
    AfterCrash1().(processes := PS.MarkCrashed(AfterCrash1().processes.value, 0), suspected := {1, 0}, round := 2)
  }

  lemma ProposedReached()
    ensures Handle(OnProcessInit(Init(), PS.ThreeCorrect()).s, Propose(Some([7]))).s == Proposed()
  {
  }

  lemma Crash1Waits()
    ensures Handle(Proposed(), Crash(1)) == Step(AfterCrash1(), [Pass], false)
  {
    var t1 := AfterCrash1().(round := 0);
    assert t1 == AfterCrash1();
    ConcludeShape(t1, [Pass], AdvanceAll);
    assert SkipFrom(0, {1}) == 0;
    assert CoveredFrom(t1.processes.value, {1}, 0) == Some(false);
    assert Handle(Proposed(), Crash(1)) == Conclude(t1, [Pass], AdvanceAll);
  }

  lemma Crash0Proposes()
    ensures Handle(AfterCrash1(), Crash(0)) == Step(AfterCrash0(), [Pass, SendPropose(ProposeFrame(Some([7]), 2))], false)
  {
    var t1 := AfterCrash1();
    var m2 := PS.MarkCrashed(t1.processes.value, 0).value;
    var t2 := t1.(processes := Some(m2), suspected := {1, 0});
    assert SkipFrom(0, {1, 0}) == 2 by {
      assert {1, 0} - {0} == {1};
      assert SkipFrom(1, {1}) == 2 by {
        assert {1} - {1} == {};
      }
    }
    ConcludeShape(t2, [Pass], AdvanceAll);
    assert AdvanceAll(t2) == AfterCrash0();
    assert CoveredFrom(m2, {1, 0}, 0) == Some(false) by {
      assert m2.procs[2].value.number == 2;
    }
    assert t1.(processes := Some(m2), suspected := t1.suspected + {0}) == t2;
    assert Handle(t1, Crash(0)) == Conclude(t2, [Pass], AdvanceAll);
  }

  lemma OwnProposalDecides()
    ensures var d := Handle(AfterCrash0(), ProposeEvent(2, ProposeFrame(Some([7]), 2)));
      !d.raised && d.out == [SendDecided(DecidedFrame(Some([7])))]
  {
    var u2 := AfterCrash0();
    var m2 := u2.processes.value;
    ProposeRoundTrip(Some([7]), 2);
    assert PS.GetRank(m2, 2) == 2 by {
      assert PS.HoldsAddr(m2.procs[2], 2);
      assert !PS.HoldsAddr(m2.procs[0], 2) && !PS.HoldsAddr(m2.procs[1], 2);
    }
    var w := u2.(ackSet := {2});
    assert Adopt(w, 2, Some([7]), 2) == w;
    assert SkipFrom(2, {1, 0, 2}) == 3 by {
      assert {1, 0, 2} - {2} == {1, 0};
    }
    ConcludeShape(w, [], AdvanceAll);
    assert AdvanceAll(w) == w.(round := 3);
    assert CoveredFrom(m2, {1, 0, 2}, 0) == Some(true) by {
      assert m2.procs[0].value.number == 0 && m2.procs[1].value.number == 1 && m2.procs[2].value.number == 2;
    }
    assert Handle(u2, ProposeEvent(2, ProposeFrame(Some([7]), 2))) == Conclude(w, [], AdvanceAll);
  }

  /**
   * With the advance of the algorithm's rule, the same reports make rank 2
   * propose in its round; its own proposal coming back then completes every
   * round and it broadcasts the decision.
   */
  lemma DecidesOnCrashOrder()
    ensures var s0 := OnProcessInit(Init(), PS.ThreeCorrect()).s;
      var s1 := Handle(s0, Propose(Some([7]))).s;
      var c2 := Handle(Handle(s1, Crash(1)).s, Crash(0));
      var d := Handle(c2.s, ProposeEvent(2, ProposeFrame(Some([7]), 2)));
      && !c2.raised && c2.s.round == 2
      && c2.out == [Pass, SendPropose(ProposeFrame(Some([7]), 2))]
      && !d.raised && d.out == [SendDecided(DecidedFrame(Some([7])))]
  {
    ProposedReached();
    Crash1Waits();
    Crash0Proposes();
    OwnProposalDecides();
  }
}
