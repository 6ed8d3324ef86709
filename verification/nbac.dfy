/**
 * Non-blocking atomic commit on top of consensus. Every process broadcasts
 * its vote; votes are multiplied into the proposal. Once every process
 * believed correct has voted, the process proposes the product to
 * consensus, or 0 when some process has crashed, and starts a fresh
 * instance. The consensus decision is handed up as the commit decision.
 */
module Nbac {
  import opened Common
  import PS = ProcessSet
  import opened Stack

  /**
   * `delivered` holds the ranks of the processes whose vote arrived (`-1`
   * for a sender not in the set); `correct` is `None` before ProcessInit.
   */
  datatype State = State(delivered: set<int>, correct: Option<PS.ProcessSet>, proposal: int)

  datatype Event =
    | ProcessInit(ps: PS.ProcessSet)
    | Crash(p: int)
    | VoteDown(value: int, m: Message)
    | VoteUp(source: Addr, m: Message)
    | ConsensusDecide(decision: Option<int>)
    | Other

  /**
   * `Pass`: the event goes on; `SendVote(m)`: the vote on its way down;
   * `Propose(v)`: the consensus proposal; `Decide(v)`: the commit decision, up.
   */
  datatype Out = Pass | SendVote(m: Message) | Propose(v: int) | Decide(v: int)

  datatype Step = Step(s: State, out: seq<Out>, raised: bool)

  /** The fields as constructed: `delivered` is `null` and reads as empty, since no handler reaches it before ProcessInit. */
  function Init(): (s: State)
    ensures s.correct.None? && s.proposal == 0 && s.delivered == {}
  {
    State({}, None, 0)
  }

  /** `init`: no vote yet and a neutral product. */
  function Fresh(s: State): (r: State)
    ensures r.delivered == {} && r.proposal == 1 && r.correct == s.correct
  {
    s.(delivered := {}, proposal := 1)
  }

  /** Every process believed correct has voted. */
  predicate AllVoted(ps: PS.ProcessSet, delivered: set<int>)
  {
    forall i :: 0 <= i < PS.Size(ps) && PS.IsCorrect(ps, i) ==> i in delivered
  }

  /** Some listed process is no longer believed correct. */
  predicate SomeCrashed(ps: PS.ProcessSet)
  {
    exists i :: 0 <= i < PS.Size(ps) && ps.procs[i].Some? && !ps.procs[i].value.correct
  }

  /**
   * The loop of `all_delivered` from rank `i` on: `None` when a correct
   * process has not voted (the loop returns early), otherwise whether every
   * listed process met from `i` on is correct.
   */
  function ScanFrom(ps: PS.ProcessSet, delivered: set<int>, i: nat): (r: Option<bool>)
    requires i <= |ps.procs|
    ensures r.Some? <==> forall j :: i <= j < |ps.procs| && PS.IsCorrect(ps, j) ==> j in delivered
    ensures r == Some(false) <==>
      && (forall j :: i <= j < |ps.procs| && PS.IsCorrect(ps, j) ==> j in delivered)
      && exists j :: i <= j < |ps.procs| && ps.procs[j].Some? && !ps.procs[j].value.correct
    decreases |ps.procs| - i
  {
    if i == |ps.procs| then Some(true)
    else if ps.procs[i].None? then ScanFrom(ps, delivered, i + 1)
    else if ps.procs[i].value.correct then
      if i !in delivered then None else ScanFrom(ps, delivered, i + 1)
    else
      match ScanFrom(ps, delivered, i + 1)
      case None => None
      case Some(_) => Some(false)
  }

  /**
   * `all_delivered`: once every correct process has voted, propose the
   * product (0 when some process crashed) and start a fresh instance;
   * otherwise nothing happens.
   */
  function AllDelivered(s: State, ps: PS.ProcessSet): (r: Step)
    requires s.correct == Some(ps)
    ensures !r.raised
    ensures r.out != [] <==> AllVoted(ps, s.delivered)
    ensures r.out == [] ==> r.s == s
    ensures r.out != [] ==> r.s == Fresh(s) && r.out == [Propose(if SomeCrashed(ps) then 0 else s.proposal)]
  {
    match ScanFrom(ps, s.delivered, 0)
    case None => Step(s, [], false)
    case Some(allCorrect) =>
      var p := if allCorrect then s.proposal else 0;
      Step(Fresh(s), [Propose(p)], false)
  }

  /**
   * `handleCrash`: mark the process crashed, pass the event on, check the
   * votes. A proposal made here is always 0: a crash aborts the instance.
   */
  function OnCrash(s: State, p: int): (r: Step)
    ensures r.raised <==> s.correct.None? || PS.MarkCrashed(s.correct.value, p).None?
    ensures r.raised ==> r == Step(s, [], true)
    ensures !r.raised ==>
      var ps := PS.MarkCrashed(s.correct.value, p).value;
      && |r.out| >= 1 && r.out[0] == Pass && r.s.correct == Some(ps)
      && (|r.out| > 1 <==> AllVoted(ps, s.delivered))
      && (|r.out| > 1 ==> r.out == [Pass, Propose(0)] && r.s.delivered == {} && r.s.proposal == 1)
      && (|r.out| == 1 ==> r.s.delivered == s.delivered && r.s.proposal == s.proposal)
  {
    if s.correct.None? then Step(s, [], true)
    else
      match PS.MarkCrashed(s.correct.value, p)
      case None => Step(s, [], true)
      case Some(ps) =>
        var a := AllDelivered(s.(correct := Some(ps)), ps);
        Step(a.s, [Pass] + a.out, false)
  }

  /** A vote on its way down: the value is pushed onto the message. */
  function VoteFrame(m: Message, value: int): Message
  {
    Push(m, IntItem(value))
  }

  /**
   * A vote arriving: record the sender, multiply the vote in (Java `int`
   * arithmetic), check the votes. A stack without an int on top, or a vote
   * before ProcessInit, raises.
   */
  function OnVote(s: State, source: Addr, m: Message): (r: Step)
    ensures r.raised <==> s.correct.None? || PopInt(m).None?
    ensures r.raised ==> r == Step(s, [], true)
    ensures !r.raised ==>
      var ps := s.correct.value;
      var voted := s.delivered + {PS.GetRank(ps, source)};
      var product := Wrap32(s.proposal * PopInt(m).value.0);
      && r.s.correct == s.correct
      && (r.out != [] <==> AllVoted(ps, voted))
      && (r.out == [] ==> r.s.delivered == voted && r.s.proposal == product)
      && (r.out != [] ==> r.s == Fresh(s) && r.out == [Propose(if SomeCrashed(ps) then 0 else product)])
  {
    if s.correct.None? then Step(s, [], true)
    else
      match PopInt(m)
      case None => Step(s, [], true)
      case Some((v, _)) =>
        var ps := s.correct.value;
        AllDelivered(s.(delivered := s.delivered + {PS.GetRank(ps, source)}, proposal := Wrap32(s.proposal * v)), ps)
  }

  /** `handleConsensusDecide`: the integer decided goes up unchanged; a decision of another kind raises. */
  function OnDecide(s: State, decision: Option<int>): (r: Step)
    ensures decision.Some? ==> r == Step(s, [Decide(decision.value)], false)
    ensures decision.None? ==> r.raised && r.s == s
  {
    match decision
    case None => Step(s, [], true)
    case Some(v) => Step(s, [Decide(v)], false)
  }

  /**
   * `handle`: a commit decision goes up only from a consensus decision, and
   * a vote goes down only for the application's vote, carrying its value.
   */
  function Handle(s: State, e: Event): (r: Step)
    ensures forall i :: 0 <= i < |r.out| && r.out[i].Decide? ==> e.ConsensusDecide? && e.decision == Some(r.out[i].v)
    ensures forall i :: 0 <= i < |r.out| && r.out[i].SendVote? ==> e.VoteDown? && PopInt(r.out[i].m) == Some((e.value, e.m))
  {
    match e
    case ProcessInit(ps) => Step(Fresh(s.(correct := Some(ps))), [Pass], false)
    case Crash(p) => OnCrash(s, p)
    case VoteDown(value, m) => VoteRoundTrip(m, value); Step(s, [SendVote(VoteFrame(m, value))], false)
    case VoteUp(source, m) => OnVote(s, source, m)
    case ConsensusDecide(d) => OnDecide(s, d)
    case Other => Step(s, [Pass], false)
  }

  /** The vote a process sends is the vote the others multiply in. */
  lemma VoteRoundTrip(m: Message, value: int)
    ensures PopInt(VoteFrame(m, value)) == Some((value, m))
  {
    PopIntPush(m, value);
  }

  /**
   * Every consensus proposal a handler makes follows a check that every
   * correct process has voted (the vote just arrived included), and is
   * followed by a fresh instance.
   */
  lemma ProposesOnlyWhenAllVoted(s: State, e: Event)
    ensures var r := Handle(s, e);
      (exists i :: 0 <= i < |r.out| && r.out[i].Propose?) ==>
        && (e.Crash? || e.VoteUp?)
        && r.s.delivered == {} && r.s.proposal == 1 && r.s.correct.Some?
        && AllVoted(r.s.correct.value, if e.Crash? then s.delivered else s.delivered + {PS.GetRank(s.correct.value, e.source)})
  {
  }

  /** A vote is 0 (abort) or 1 (commit). */
  predicate IsVote(v: int)
  {
    v == 0 || v == 1
  }

  /**
   * One vote arriving: without a proposal, the product is 1 exactly when it
   * was 1 and the vote is 1; with one, the value proposed is that product,
   * or 0 when some process crashed.
   */
  lemma VoteMultiplies(s: State, source: Addr, m: Message, v: int)
    requires s.correct.Some? && IsVote(s.proposal) && IsVote(v)
    requires PopInt(m).Some? && PopInt(m).value.0 == v
    ensures var r := OnVote(s, source, m);
      var product := if s.proposal == 1 && v == 1 then 1 else 0;
      && !r.raised
      && (r.out == [] ==> r.s.proposal == product && r.s.delivered == s.delivered + {PS.GetRank(s.correct.value, source)})
      && (r.out != [] ==> r.out == [Propose(if SomeCrashed(s.correct.value) then 0 else product)] && r.s == Fresh(s))
  {
  }

  /** Votes arriving one after the other, each as its own message. */
  function DeliverVotes(s: State, votes: seq<(Addr, int)>): (r: Step)
    decreases |votes|
  {
    if votes == [] then Step(s, [], false)
    else
      var a := OnVote(s, votes[0].0, VoteFrame([], votes[0].1));
      if a.raised then a
      else
        var b := DeliverVotes(a.s, votes[1..]);
        Step(b.s, a.out + b.out, b.raised)
  }

  /**
   * The proposal is the product of the votes: while no consensus proposal
   * is made, it is 1 exactly when it started at 1 and every vote since was 1.
   */
  lemma {:induction false} ProposalIsProduct(s: State, votes: seq<(Addr, int)>)
    requires s.correct.Some? && IsVote(s.proposal)
    requires forall i :: 0 <= i < |votes| ==> IsVote(votes[i].1)
    ensures var r := DeliverVotes(s, votes);
      && !r.raised
      && (r.out == [] ==>
            && IsVote(r.s.proposal)
            && (r.s.proposal == 1 <==> s.proposal == 1 && forall i :: 0 <= i < |votes| ==> votes[i].1 == 1))
    decreases |votes|
  {
    if votes != [] {
      var a := OnVote(s, votes[0].0, VoteFrame([], votes[0].1));
      VoteRoundTrip([], votes[0].1);
      VoteMultiplies(s, votes[0].0, VoteFrame([], votes[0].1), votes[0].1);
      ProposalIsProduct(a.s, votes[1..]);
      var r := DeliverVotes(s, votes);
      if r.out == [] {
        assert a.out == [];
        assert forall i :: 1 <= i < |votes| ==> votes[i].1 == votes[1..][i - 1].1;
      }
    }
  }

  /**
   * Commit needs unanimity: a step that proposes 1 started with a product of
   * 1, took a vote of 1 (when it was a vote) and saw no process crashed.
   */
  lemma CommitNeedsUnanimity(s: State, e: Event)
    requires s.correct.Some? && IsVote(s.proposal)
    requires e.VoteUp? ==> PopInt(e.m).Some? && IsVote(PopInt(e.m).value.0)
    ensures var r := Handle(s, e);
      Propose(1) in r.out ==>
        && (e.Crash? || e.VoteUp?)
        && s.proposal == 1 && (e.VoteUp? ==> PopInt(e.m).value.0 == 1)
        && !SomeCrashed(if e.Crash? then PS.MarkCrashed(s.correct.value, e.p).value else s.correct.value)
  {
    if e.VoteUp? {
      VoteMultiplies(s, e.source, e.m, PopInt(e.m).value.0);
    }
  }
}
