/**
 * Terminating reliable broadcast on top of consensus. For an instance with a
 * given sender, the sender itself sends its message; every process proposes
 * to consensus either the first message it receives or, once it learns the
 * sender crashed, the claim that the sender failed. The decision is
 * delivered as the sender's message, or as nothing when it is the failure
 * claim, and the instance starts over.
 */
module Trb {
  import opened Common
  import PS = ProcessSet
  import opened Stack
  import opened TRBProposal

  /**
   * `src` is the rank of the current instance's sender (`None` for `null`);
   * its correctness is read from the process set when needed, since a crash
   * report updates the very process object the session holds.
   */
  datatype State = State(proposal: Option<Proposal>, correct: Option<PS.ProcessSet>, src: Option<int>)

  /** A consensus decision: a TRB proposal, or a value of another kind. */
  datatype Decision = TrbDecision(p: Proposal) | OtherDecision

  datatype Event =
    | ProcessInit(ps: PS.ProcessSet)
    | Crash(p: int)
    | TrbRequest(sender: Addr, m: Option<Payload>)
    | Sendable(msg: Message)
    | ConsensusDecide(d: Decision)
    | Other

  /**
   * `Pass`: the event goes on; `Send(m)`: the sender's message, down;
   * `Propose(p)`: the consensus proposal; `Deliver(from, m)`: the TRB
   * delivery of sender `from` (`m` is `None` when the sender failed).
   */
  datatype Out = Pass | Send(msg: Message) | Propose(p: Proposal) | Deliver(from: Addr, m: Option<Payload>)

  datatype Step = Step(s: State, out: seq<Out>, raised: bool)

  function Init(): (s: State)
    ensures s.proposal.None? && s.correct.None? && s.src.None?
  {
    State(None, None, None)
  }

  /** `init`: no proposal and no sender; the process set stays. */
  function Fresh(s: State): (r: State)
    ensures r.proposal.None? && r.src.None? && r.correct == s.correct
  {
    s.(proposal := None, src := None)
  }

  /** The sender's message on its way down. */
  function SendFrame(m: Option<Payload>): Message
  {
    Push([], ValItem(m))
  }

  /**
   * `failed`: when there is no proposal yet and the sender is known and no
   * longer believed correct, propose the failure claim.
   */
  function Failed(s: State): (r: Step)
    ensures !r.raised
    ensures r.out != [] <==>
      && s.proposal.None? && s.src.Some? && s.correct.Some? && !PS.IsCorrect(s.correct.value, s.src.value)
    ensures r.out == [] ==> r.s == s
    ensures r.out != [] ==> r.out == [Propose(OfFlag(true))] && r.s == s.(proposal := Some(OfFlag(true)))
  {
    if s.proposal.Some? || s.src.None? || s.correct.None? || PS.IsCorrect(s.correct.value, s.src.value) then Step(s, [], false)
    else
      var p := OfFlag(true);
      Step(s.(proposal := Some(p)), [Propose(p)], false)
  }

  /**
   * `handleCrash`: mark the process crashed, pass the event on, check whether
   * the sender failed. The failure claim is proposed exactly when nothing was
   * proposed yet and the instance's sender is now not believed correct.
   */
  function OnCrash(s: State, p: int): (r: Step)
    ensures r.raised <==> s.correct.None? || PS.MarkCrashed(s.correct.value, p).None?
    ensures r.raised ==> r == Step(s, [], true)
    ensures !r.raised ==>
      var ps := PS.MarkCrashed(s.correct.value, p).value;
      && r.s.correct == Some(ps) && r.s.src == s.src
      && 1 <= |r.out| <= 2 && r.out[0] == Pass
      && (|r.out| == 2 <==> s.proposal.None? && s.src.Some? && !PS.IsCorrect(ps, s.src.value))
      && (|r.out| == 2 ==> r.out[1] == Propose(OfFlag(true)) && r.s.proposal == Some(OfFlag(true)))
      && (|r.out| == 1 ==> r.s.proposal == s.proposal)
  {
    if s.correct.None? then Step(s, [], true)
    else
      match PS.MarkCrashed(s.correct.value, p)
      case None => Step(s, [], true)
      case Some(ps) =>
        var f := Failed(s.(correct := Some(ps)));
        Step(f.s, [Pass] + f.out, false)
  }

  /**
   * `handleTRBEvent`: take the sender of the instance (an unknown address
   * leaves it `null` and raises); the sender itself sends its message; then
   * check whether the sender failed.
   */
  function OnRequest(s: State, p: Addr, m: Option<Payload>): (r: Step)
    ensures r.raised <==> s.correct.None? || PS.GetRank(s.correct.value, p) < 0
    ensures !r.raised ==> r.s.src == Some(PS.GetRank(s.correct.value, p)) && r.s.correct == s.correct
    ensures forall i :: 0 <= i < |r.out| && r.out[i].Send? ==> i == 0 && r.out[i].msg == SendFrame(m)
    ensures forall i :: 0 <= i < |r.out| && r.out[i].Propose? ==>
      && r.out[i].p == OfFlag(true) && s.proposal.None? && s.correct.Some?
      && !PS.IsCorrect(s.correct.value, PS.GetRank(s.correct.value, p))
  {
    if s.correct.None? then Step(s, [], true)
    else
      var ps := s.correct.value;
      var rank := PS.GetRank(ps, p);
      if rank < 0 then Step(s.(src := None), [], true)
      else
        var s1 := s.(src := Some(rank));
        var sent := if ps.procs[rank].value.isSelf then [Send(SendFrame(m))] else [];
        var f := Failed(s1);
        Step(f.s, sent + f.out, false)
  }

  /** `handleTRBSendableEvent`: the first message received becomes the proposal. */
  function OnSendable(s: State, msg: Message): (r: Step)
    ensures s.proposal.Some? ==> r == Step(s, [], false)
    ensures s.proposal.None? && !r.raised ==>
      && msg != [] && msg[|msg| - 1].ValItem?
      && r.s == s.(proposal := Some(OfMessage(msg[|msg| - 1].v)))
      && r.out == [Propose(OfMessage(msg[|msg| - 1].v))]
  {
    if s.proposal.Some? then Step(s, [], false)
    else
      match Pop(msg)
      case Some((ValItem(v), _)) =>
        var p := OfMessage(v);
        Step(s.(proposal := Some(p)), [Propose(p)], false)
      case _ => Step(s, [], true)
  }

  /**
   * `handleConsensusDecide`: a TRB decision is delivered as the sender's
   * message, or as nothing for the failure claim, and the instance starts
   * over; any other decision passes on.
   */
  function OnDecide(s: State, d: Decision): (r: Step)
    ensures d.OtherDecision? ==> r == Step(s, [Pass], false)
    ensures d.TrbDecision? && !r.raised ==>
      && s.src.Some? && s.correct.Some? && 0 <= s.src.value < PS.Size(s.correct.value)
      && s.correct.value.procs[s.src.value].Some?
      && r.s == Fresh(s)
      && r.out == [Deliver(s.correct.value.procs[s.src.value].value.addr, if d.p.failed then None else d.p.m)]
  {
    match d
    case OtherDecision => Step(s, [Pass], false)
    case TrbDecision(p) =>
      if s.src.None? || s.correct.None? || !(0 <= s.src.value < PS.Size(s.correct.value))
        || s.correct.value.procs[s.src.value].None? then Step(s, [], true)
      else
        var addr := s.correct.value.procs[s.src.value].value.addr;
        Step(Fresh(s), [Deliver(addr, if p.failed then None else p.m)], false)
  }

  /**
   * `handle`: a delivery comes only from a TRB decision and starts a fresh
   * instance; a message goes down only for a TRB request, and it is the
   * request's message.
   */
  function Handle(s: State, e: Event): (r: Step)
    ensures forall i :: 0 <= i < |r.out| && r.out[i].Deliver? ==>
      e.ConsensusDecide? && e.d.TrbDecision? && r.s.proposal.None? && r.s.src.None?
    ensures forall i :: 0 <= i < |r.out| && r.out[i].Send? ==> e.TrbRequest? && r.out[i].msg == SendFrame(e.m)
  {
    match e
    case ProcessInit(ps) => Step(Fresh(s.(correct := Some(ps))), [Pass], false)
    case Crash(p) => OnCrash(s, p)
    case TrbRequest(p, m) => OnRequest(s, p, m)
    case Sendable(msg) => OnSendable(s, msg)
    case ConsensusDecide(d) => OnDecide(s, d)
    case Other => Step(s, [Pass], false)
  }

  /** The sender's message reaches every process as it was sent. */
  lemma SendRoundTrip(m: Option<Payload>)
    ensures OnSendable(Init(), SendFrame(m)).out == [Propose(OfMessage(m))]
  {
    PopPush([], ValItem(m));
  }

  /** Only the sender of the instance sends its message. */
  lemma OnlySenderSends(s: State, p: Addr, m: Option<Payload>)
    ensures var r := OnRequest(s, p, m);
      (exists i :: 0 <= i < |r.out| && r.out[i].Send?) <==>
        && s.correct.Some? && PS.GetRank(s.correct.value, p) >= 0
        && s.correct.value.procs[PS.GetRank(s.correct.value, p)].value.isSelf
  {
    var r := OnRequest(s, p, m);
    if s.correct.Some? && PS.GetRank(s.correct.value, p) >= 0 {
      var f := Failed(s.(src := Some(PS.GetRank(s.correct.value, p))));
      assert forall i :: 0 <= i < |f.out| ==> f.out[i].Propose?;
      if s.correct.value.procs[PS.GetRank(s.correct.value, p)].value.isSelf {
        assert r.out[0].Send?;
      } else {
        assert r.out == f.out;
      }
    }
  }

  /** The number of consensus proposals among the outputs. */
  function Proposals(out: seq<Out>): (n: nat)
    ensures n <= |out|
  {
    if out == [] then 0 else Proposals(out[..|out| - 1]) + (if out[|out| - 1].Propose? then 1 else 0)
  }

  lemma {:induction false} ProposalsAppend(a: seq<Out>, b: seq<Out>)
    ensures Proposals(a + b) == Proposals(a) + Proposals(b)
    decreases |b|
  {
    if b == [] {
      assert a + b == a;
    } else {
      assert (a + b)[..|a + b| - 1] == a + b[..|b| - 1];
      ProposalsAppend(a, b[..|b| - 1]);
    }
  }

  /**
   * Within an instance, a handler proposes at most once, only while there is
   * no proposal, and what it proposes is then the proposal held.
   */
  lemma ProposesOnce(s: State, e: Event)
    requires !e.ConsensusDecide? && !e.ProcessInit?
    ensures ProposedOnce(s, Handle(s, e))
  {
    match e
    case Crash(p) =>
      if s.correct.Some? && PS.MarkCrashed(s.correct.value, p).Some? {
        assert Proposals([Pass]) == 0 by { assert [Pass][..0] == []; }
        FailedProposesOnce(s, s.(correct := PS.MarkCrashed(s.correct.value, p)), [Pass]);
      }
    case TrbRequest(p, m) =>
      if s.correct.Some? && PS.GetRank(s.correct.value, p) >= 0 {
        var rank := PS.GetRank(s.correct.value, p);
        var sent: seq<Out> := if s.correct.value.procs[rank].value.isSelf then [Send(SendFrame(m))] else [];
        assert Proposals(sent) == 0 by {
          if sent != [] {
            assert sent[..0] == [];
          }
        }
        FailedProposesOnce(s, s.(src := Some(rank)), sent);
      }
    case Sendable(msg) =>
      var r := Handle(s, e);
      if r.out != [] {
        assert Proposals(r.out) == 1 by { assert r.out[..0] == []; }
      }
    case Other =>
      assert Proposals([Pass]) == 0 by { assert [Pass][..0] == []; }
  }

  /**
   * At most one proposal, none while there already is one, and a proposal
   * made is the one held afterwards.
   */
  predicate ProposedOnce(s: State, r: Step)
  {
    && Proposals(r.out) <= 1
    && (s.proposal.Some? ==> Proposals(r.out) == 0 && r.s.proposal == s.proposal)
    && (Proposals(r.out) == 1 ==> r.s.proposal.Some? && Propose(r.s.proposal.value) in r.out)
    && (s.proposal.None? && Proposals(r.out) == 0 ==> r.s.proposal.None?)
  }

  /** The failure check after outputs that propose nothing. */
  lemma FailedProposesOnce(s: State, s1: State, pre: seq<Out>)
    requires s1.proposal == s.proposal && Proposals(pre) == 0
    ensures ProposedOnce(s, Step(Failed(s1).s, pre + Failed(s1).out, false))
  {
    var f := Failed(s1);
    ProposalsAppend(pre, f.out);
    if f.out != [] {
      assert Proposals(f.out) == 1 by { assert f.out[..0] == []; }
      assert (pre + f.out)[|pre|] == Propose(f.s.proposal.value);
    }
  }

  /** Events in sequence; a raise stops the run. */
  function Run(s: State, es: seq<Event>): (r: Step)
    decreases |es|
  {
    if es == [] then Step(s, [], false)
    else
      var a := Handle(s, es[0]);
      if a.raised then a
      else
        var b := Run(a.s, es[1..]);
        Step(b.s, a.out + b.out, b.raised)
  }

  /**
   * At most one consensus proposal per instance: along any run without a
   * decision or a re-initialisation, the process proposes at most once,
   * and not at all when it already held a proposal.
   */
  lemma {:induction false} OneProposalPerInstance(s: State, es: seq<Event>)
    requires forall i :: 0 <= i < |es| ==> !es[i].ConsensusDecide? && !es[i].ProcessInit?
    ensures var r := Run(s, es);
      && Proposals(r.out) <= 1
      && (s.proposal.Some? ==> Proposals(r.out) == 0 && r.s.proposal == s.proposal)
      && (Proposals(r.out) == 1 ==> r.s.proposal.Some?)
      && (s.proposal.None? && Proposals(r.out) == 0 ==> r.s.proposal.None?)
    decreases |es|
  {
    if es == [] {
    } else {
      var a := Handle(s, es[0]);
      ProposesOnce(s, es[0]);
      if !a.raised {
        assert forall i :: 0 <= i < |es[1..]| ==> es[1..][i] == es[i + 1];
        OneProposalPerInstance(a.s, es[1..]);
        var b := Run(a.s, es[1..]);
        assert Run(s, es) == Step(b.s, a.out + b.out, b.raised);
        ProposalsAppend(a.out, b.out);
      } else {
        assert Run(s, es) == a;
      }
    }
  }

  /**
   * The failure claim is proposed only for a known sender no longer believed
   * correct, and only while there was no proposal.
   */
  lemma FailureClaimMeansCrashed(s: State, e: Event)
    ensures var r := Handle(s, e);
      Propose(OfFlag(true)) in r.out ==>
        && r.s.src.Some? && r.s.correct.Some? && !PS.IsCorrect(r.s.correct.value, r.s.src.value)
        && s.proposal.None?
  {
    var r := Handle(s, e);
    match e
    case Sendable(msg) =>
      if r.out != [] {
        assert r.out[0] == Propose(OfMessage(msg[|msg| - 1].v));
      }
    case _ =>
  }

  /**
   * A TRB decision for a known sender is delivered once, and the delivery is
   * empty exactly when the decision is the failure claim or an empty message.
   */
  lemma DeliversNothingOnlyForFailure(s: State, p: Proposal)
    requires s.src.Some? && s.correct.Some? && 0 <= s.src.value < PS.Size(s.correct.value)
    requires s.correct.value.procs[s.src.value].Some?
    ensures var r := Handle(s, ConsensusDecide(TrbDecision(p)));
      && !r.raised && |r.out| == 1 && r.out[0].Deliver? && r.s == Fresh(s)
      && (r.out[0].m.None? <==> p.failed || p.m.None?)
      && (!p.failed ==> r.out[0].m == p.m)
  {
  }
}
