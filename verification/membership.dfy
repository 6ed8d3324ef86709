/**
 * Group membership on top of consensus. The first view holds every process.
 * When a member of the current view is reported crashed and no view change
 * is under way, the process proposes to consensus the next view: the
 * processes still believed correct, renumbered 0, 1, … in rank order. The
 * decided view is installed and reported up.
 */
module ConsensusMembership {
  import opened Common
  import PS = ProcessSet
  import opened MembershipView

  /** `view` is `None` before ProcessInit (and after a `null` decision); `waiting` is `wait`. */
  datatype State = State(view: Option<View>, correct: Option<PS.ProcessSet>, waiting: bool)

  /** A consensus decision: a view (possibly `null`), or a value of another kind. */
  datatype Decision = ViewDecision(v: Option<View>) | OtherDecision

  datatype Event =
    | ProcessInit(ps: PS.ProcessSet)
    | Crash(p: int)
    | ConsensusDecide(d: Decision)
    | Other

  /** `Pass`: the event goes on; `Install(v)`: a ViewEvent, up; `Propose(v)`: the next view, to consensus. */
  datatype Out = Pass | Install(installed: Option<View>) | Propose(next: View)

  datatype Step = Step(s: State, out: seq<Out>, raised: bool)

  function Init(): (s: State)
    ensures s.view.None? && s.correct.None? && !s.waiting
  {
    State(None, None, false)
  }

  /** The processes of `procs` believed correct, in rank order. */
  function CorrectOnes(procs: seq<Option<PS.Process>>): (r: seq<PS.Process>)
    ensures |r| <= |procs|
    ensures forall k :: 0 <= k < |r| ==> r[k].correct && Some(r[k]) in procs
    decreases |procs|
  {
    if procs == [] then []
    else
      var last := procs[|procs| - 1];
      CorrectOnes(procs[..|procs| - 1]) + (if last.Some? && last.value.correct then [last.value] else [])
  }

  /** The rank of the last local process in `ms`, or `fallback` when there is none. */
  function SelfRank(ms: seq<PS.Process>, fallback: int): (r: int)
    ensures r == fallback || (0 <= r < |ms| && ms[r].isSelf)
    ensures (forall k :: 0 <= k < |ms| ==> !ms[k].isSelf) ==> r == fallback
    decreases |ms|
  {
    if ms == [] then fallback
    else if ms[|ms| - 1].isSelf then |ms| - 1
    else SelfRank(ms[..|ms| - 1], fallback)
  }

  /**
   * The membership of the next view: the correct processes at ranks 0, 1, …
   * in their old rank order; the local rank is where the local process
   * landed, 0 when it is not among them.
   */
  function Trimmed(ps: PS.ProcessSet): (r: PS.ProcessSet)
  {
    var ms := CorrectOnes(ps.procs);
    PS.ProcessSet(seq(|ms|, k requires 0 <= k < |ms| => Some(ms[k])), SelfRank(ms, 0))
  }

  /**
   * The trimming loop as written: a fresh empty set, each correct process
   * added at the next rank with `addProcess`. Every addition lands one past
   * the end, where `addProcess` grows the array by one and succeeds.
   */
  method TrimLoop(ps: PS.ProcessSet) returns (r: PS.ProcessSet)
    requires PS.Full(ps)
    ensures r == Trimmed(ps)
  {
    r := PS.ProcessSet([], 0);
    assert r == Trimmed(PS.ProcessSet(ps.procs[..0], ps.self)) by {
      assert ps.procs[..0] == [];
    }
    var i := 0;
    while i < |ps.procs|
      invariant 0 <= i <= |ps.procs|
      invariant r == Trimmed(PS.ProcessSet(ps.procs[..i], ps.self))
    {
      var p := ps.procs[i].value;
      assert ps.procs[..i + 1] == ps.procs[..i] + [Some(p)];
      r := TrimOne(r, p, ps.procs[..i], ps.self);
      i := i + 1;
    }
    assert PS.ProcessSet(ps.procs[..i], ps.self) == ps by {
      assert ps.procs[..i] == ps.procs;
    }
  }

  /** One turn of the loop: a correct process is added one past the end of what was kept so far. */
  method TrimOne(r: PS.ProcessSet, p: PS.Process, prefix: seq<Option<PS.Process>>, self: int) returns (r': PS.ProcessSet)
    requires r == Trimmed(PS.ProcessSet(prefix, self))
    ensures r' == Trimmed(PS.ProcessSet(prefix + [Some(p)], self))
  {
    TrimStep(prefix, p, self);
    r' := r;
    if p.correct {
      var added := PS.AddProcess(r, p, |r.procs|);
      r' := added.ps;
    }
  }

  /** One more process: a correct one lands one past the end of the trimmed set, as `addProcess` puts it. */
  lemma TrimStep(prefix: seq<Option<PS.Process>>, p: PS.Process, self: int)
    ensures var t := Trimmed(PS.ProcessSet(prefix, self));
      Trimmed(PS.ProcessSet(prefix + [Some(p)], self)) ==
        if p.correct then PS.AddProcess(t, p, |t.procs|).ps else t
  {
    var procs := prefix + [Some(p)];
    assert procs[..|procs| - 1] == prefix;
    var ms := CorrectOnes(prefix);
    if p.correct {
      assert CorrectOnes(procs) == ms + [p];
      assert (ms + [p])[..|ms|] == ms;
    } else {
      assert CorrectOnes(procs) == ms;
    }
  }

  /** A member of the view is no longer believed correct: a process of the set, not correct, whose address the view lists. */
  predicate MemberCrashed(ps: PS.ProcessSet, v: View)
    requires PS.Full(ps)
  {
    exists i :: 0 <= i < PS.Size(ps) && !ps.procs[i].value.correct && PS.GetRank(v.memb, ps.procs[i].value.addr) >= 0
  }

  /**
   * `newMembership`: unless a view change is under way, propose the next
   * view once a member of the current one is no longer believed correct. An
   * empty slot in the set, or no current view, makes the check raise.
   */
  function NewMembership(s: State): (r: Step)
    ensures r.raised ==> r.s == s && r.out == []
    ensures s.waiting ==> r == Step(s, [], false)
    ensures r.out != [] <==>
      && !s.waiting && s.correct.Some? && PS.Full(s.correct.value) && s.view.Some?
      && MemberCrashed(s.correct.value, s.view.value)
    ensures r.out == [] && !r.raised ==> r.s == s
    ensures r.out != [] ==>
      && r.s == s.(waiting := true)
      && r.out == [Propose(View(s.view.value.id + 1, Trimmed(s.correct.value)))]
  {
    if s.waiting then Step(s, [], false)
    else if s.correct.None? || !PS.Full(s.correct.value) || s.view.None? then Step(s, [], true)
    else if !MemberCrashed(s.correct.value, s.view.value) then Step(s, [], false)
    else Step(s.(waiting := true), [Propose(View(s.view.value.id + 1, Trimmed(s.correct.value)))], false)
  }

  /**
   * `handle`: only a crash report proposes, and then only when no view change
   * was under way; the proposal is the view after the current one, holding the
   * processes now believed correct, and it marks a change under way. A decided
   * view ends the change and is installed.
   */
  function Handle(s: State, e: Event): (r: Step)
    ensures forall k :: 0 <= k < |r.out| && r.out[k].Propose? ==>
      && e.Crash? && !s.waiting && r.s.waiting && s.view.Some? && r.s.correct.Some?
      && r.out[k].next == View(s.view.value.id + 1, Trimmed(r.s.correct.value))
    ensures e.ConsensusDecide? && e.d.ViewDecision? ==>
      !r.raised && r.s.view == e.d.v && !r.s.waiting && r.out == [Install(e.d.v)]
  {
    match e
    case ProcessInit(ps) =>
      var v := View(0, ps);
      Step(State(Some(v), Some(ps), false), [Pass, Install(Some(v))], false)
    case Crash(p) =>
      if s.correct.None? then Step(s, [], true)
      else if PS.MarkCrashed(s.correct.value, p).None? then Step(s, [], true)
      else
        var n := NewMembership(s.(correct := PS.MarkCrashed(s.correct.value, p)));
        Step(n.s, [Pass] + n.out, n.raised)
    case ConsensusDecide(d) =>
      if d.OtherDecision? then Step(s, [], true)
      else Step(s.(view := d.v, waiting := false), [Install(d.v)], false)
    case Other => Step(s, [Pass], false)
  }

  /** The first view: identifier 0, every process, no change under way; it is reported up. */
  lemma FirstView(s: State, ps: PS.ProcessSet)
    ensures var r := Handle(s, ProcessInit(ps));
      && !r.raised && r.s.view == Some(View(0, ps)) && r.s.correct == Some(ps) && !r.s.waiting
      && Install(Some(View(0, ps))) in r.out
  {
    assert Handle(s, ProcessInit(ps)).out[1] == Install(Some(View(0, ps)));
  }

  /** The next view holds exactly the processes believed correct. */
  lemma {:induction false} CorrectOnesMembers(procs: seq<Option<PS.Process>>)
    ensures forall p :: p in CorrectOnes(procs) <==> Some(p) in procs && p.correct
    decreases |procs|
  {
    if procs != [] {
      var init := procs[..|procs| - 1];
      var last := procs[|procs| - 1];
      CorrectOnesMembers(init);
      assert procs == init + [last];
      var c := CorrectOnes(procs);
      forall p
        ensures p in c <==> Some(p) in procs && p.correct
      {
        if Some(p) in procs && p.correct && Some(p) != last {
          var i :| 0 <= i < |procs| && procs[i] == Some(p);
          assert i < |init| && init[i] == Some(p);
        }
      }
    }
  }

  /**
   * The old ranks of the members of the next view: each member comes from
   * its slot, and the ranks increase, so the next view keeps the old order.
   */
  function Origins(procs: seq<Option<PS.Process>>): (r: seq<nat>)
    ensures |r| == |CorrectOnes(procs)|
    ensures forall k :: 0 <= k < |r| ==> r[k] < |procs| && procs[r[k]] == Some(CorrectOnes(procs)[k])
    ensures forall k, l :: 0 <= k < l < |r| ==> r[k] < r[l]
    decreases |procs|
  {
    if procs == [] then []
    else
      var n := |procs| - 1;
      var init := Origins(procs[..n]);
      assert forall k :: 0 <= k < |init| ==> procs[init[k]] == procs[..n][init[k]];
      assert CorrectOnes(procs) == CorrectOnes(procs[..n]) + (if procs[n].Some? && procs[n].value.correct then [procs[n].value] else []);
      init + (if procs[n].Some? && procs[n].value.correct then [n] else [])
  }

  /** The next view's membership is full and lists exactly the correct processes. */
  lemma TrimmedMembers(ps: PS.ProcessSet)
    ensures PS.Full(Trimmed(ps))
    ensures forall p :: Some(p) in Trimmed(ps).procs <==> Some(p) in ps.procs && p.correct
  {
    CorrectOnesMembers(ps.procs);
    var ms := CorrectOnes(ps.procs);
    var t := Trimmed(ps);
    forall p
      ensures Some(p) in t.procs <==> p in ms
    {
      if p in ms {
        var k :| 0 <= k < |ms| && ms[k] == p;
        assert t.procs[k] == Some(p);
      }
    }
  }

  /**
   * A view change is proposed only when none is under way and a member of
   * the current view was reported crashed; from the proposal until the
   * decision, further crash reports propose nothing, and the decision
   * installs the decided view and ends the wait.
   */
  lemma OneChangeAtATime(s: State, p: int, d: Option<View>)
    requires s.waiting
    ensures var r := Handle(s, Crash(p));
      !r.raised ==> r.out == [Pass] && r.s.waiting && r.s.view == s.view
    ensures var r := Handle(s, ConsensusDecide(ViewDecision(d)));
      !r.raised && r.s.view == d && !r.s.waiting && r.out == [Install(d)]
  {
  }

  /** The view proposed after a crash report is the next identifier with the trimmed membership. */
  lemma ProposalIsNextView(s: State, p: int)
    requires s.correct.Some? && PS.MarkCrashed(s.correct.value, p).Some?
    ensures var r := Handle(s, Crash(p));
      var ps := PS.MarkCrashed(s.correct.value, p).value;
      (exists k :: 0 <= k < |r.out| && r.out[k].Propose?) <==>
        && !s.waiting && PS.Full(ps) && s.view.Some? && MemberCrashed(ps, s.view.value)
    ensures var r := Handle(s, Crash(p));
      var ps := PS.MarkCrashed(s.correct.value, p).value;
      forall k :: 0 <= k < |r.out| && r.out[k].Propose? ==>
        s.view.Some? && r.out[k].next == View(s.view.value.id + 1, Trimmed(ps)) && r.s.waiting
  {
    var r := Handle(s, Crash(p));
    var ps := PS.MarkCrashed(s.correct.value, p).value;
    var n := NewMembership(s.(correct := Some(ps)));
    assert r.out == [Pass] + n.out;
    if n.out != [] {
      assert r.out[1].Propose?;
    }
  }
}
