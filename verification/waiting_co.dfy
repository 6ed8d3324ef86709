/**
 * Causal order with vector clocks ("waiting" causal order). Each process
 * counts, per process, the messages it has delivered from it, its own sends
 * counted at send time. A message carries the sender's clock; it is
 * delivered once the receiver has delivered every message the sender had
 * seen before it, and waits in a pending list otherwise. After each
 * delivery from the network the pending list is scanned for messages that
 * can now go.
 */
module WaitingCO {
  import opened Common
  import PS = ProcessSet
  import opened Stack

  /** A message waiting in the pending list, its clock still on top of its stack. */
  datatype Entry = Entry(source: Addr, m: Message)

  /**
   * `correct` and the clock are `None` before ProcessInit, the pending list
   * before ChannelInit.
   */
  datatype State = State(correct: Option<PS.ProcessSet>, pending: Option<seq<Entry>>, vc: Option<seq<int>>)

  datatype Event =
    | ChannelInit
    | ProcessInit(ps: PS.ProcessSet)
    | Down(m: Message)
    | Up(source: Addr, m: Message)
    | Other

  /** `Pass`: the event goes on; `Send(m)`: down, clock pushed; `Deliver(source, m)`: up, clock popped. */
  datatype Out = Pass | Send(m: Message) | Deliver(source: Addr, m: Message)

  datatype Step = Step(s: State, out: seq<Out>, raised: bool)

  function Init(): (s: State)
    ensures s.correct.None? && s.pending.None? && s.vc.None?
  {
    State(None, None, None)
  }

  /** `n` zeros: the clock as ProcessInit builds it. */
  function Zeros(n: nat): (r: seq<int>)
    ensures |r| == n && forall k :: 0 <= k < n ==> r[k] == 0
  {
    seq(n, _ => 0)
  }

  /** `popObject` of a clock: `None` on an empty stack or another kind of object (the cast raises). */
  function PopClock(m: Message): (r: Option<(seq<int>, Message)>)
    ensures r.Some? ==> Push(r.value.1, ClockItem(r.value.0)) == m
  {
    match Pop(m)
    case Some((ClockItem(vc), rest)) => Some((vc, rest))
    case _ => None
  }

  lemma PopClockPush(m: Message, vc: seq<int>)
    ensures PopClock(Push(m, ClockItem(vc))) == Some((vc, m))
  {
    PopPush(m, ClockItem(vc));
  }

  /** No entry of `clk` other than the source's is ahead of the local clock, from index `i` on. */
  function NoneAheadFrom(vc: seq<int>, clk: seq<int>, rs: int, i: nat): (r: bool)
    requires |vc| <= |clk| && i <= |vc|
    ensures r <==> forall k :: i <= k < |vc| && k != rs ==> clk[k] <= vc[k]
    decreases |vc| - i
  {
    if i == |vc| then true
    else (i == rs || clk[i] <= vc[i]) && NoneAheadFrom(vc, clk, rs, i + 1)
  }

  /**
   * The delivery condition as specified: the receiver has delivered every
   * message of the source but this one, and every message of the others
   * that the source had delivered.
   */
  predicate Deliverable(vc: seq<int>, rs: int, clk: seq<int>)
  {
    && 0 <= rs < |vc| <= |clk|
    && vc[rs] >= clk[rs] - 1
    && forall k :: 0 <= k < |vc| && k != rs ==> clk[k] <= vc[k]
  }

  /**
   * `canDeliver`: `None` when an index goes out of bounds (a source not in
   * the set, a clock shorter than the local one), otherwise the condition.
   */
  function CanDeliver(vc: seq<int>, rs: int, clk: seq<int>): (r: Option<bool>)
    ensures r.None? <==> !(0 <= rs < |vc|) || |clk| < |vc|
    ensures r == Some(true) <==> Deliverable(vc, rs, clk)
  {
    if !(0 <= rs < |vc|) || |clk| < |vc| then None
    else Some(vc[rs] >= clk[rs] - 1 && NoneAheadFrom(vc, clk, rs, 0))
  }

  /**
   * The clock after delivering a message of rank `rank` from `source`: a
   * message of another process counts one more at its rank; the local
   * process's own messages were counted when sent.
   */
  function Tick(vc: seq<int>, rank: int, source: Addr, selfAddr: Addr): (r: seq<int>)
    requires 0 <= rank < |vc|
    ensures |r| == |vc|
    ensures forall k :: 0 <= k < |vc| && k != rank ==> r[k] == vc[k]
    ensures r[rank] == vc[rank] + (if source == selfAddr then 0 else 1)
  {
    if source == selfAddr then vc else vc[rank := vc[rank] + 1]
  }

  /** The outcome of one scan of the pending list: the clock, the deliveries, which entries were delivered. */
  datatype Scan = Scan(vc: seq<int>, out: seq<Out>, marks: seq<bool>, raised: bool)

  /**
   * One pass over the pending entries in list order: each entry deliverable
   * under the clock as it stands (earlier deliveries of the pass included)
   * is delivered and marked. A malformed entry, a source not in the set or
   * an unknown local process raises.
   */
  function ScanEntries(ps: PS.ProcessSet, vc: seq<int>, entries: seq<Entry>): (r: Scan)
    ensures |r.vc| == |vc|
    ensures forall k :: 0 <= k < |vc| ==> r.vc[k] >= vc[k]
    ensures !r.raised ==> |r.marks| == |entries|
    ensures forall i :: 0 <= i < |r.out| ==> r.out[i].Deliver?
    decreases |entries|
  {
    if entries == [] then Scan(vc, [], [], false)
    else
      var e := entries[0];
      match PopClock(e.m)
      case None => Scan(vc, [], [], true)
      case Some((clk, body)) =>
        var rank := PS.GetRank(ps, e.source);
        match CanDeliver(vc, rank, clk)
        case None => Scan(vc, [], [], true)
        case Some(false) =>
          var rest := ScanEntries(ps, vc, entries[1..]);
          Scan(rest.vc, rest.out, [false] + rest.marks, rest.raised)
        case Some(true) =>
          if !(0 <= ps.self < PS.Size(ps)) || PS.GetSelfProcess(ps).None? then Scan(vc, [Deliver(e.source, body)], [], true)
          else
            var rest := ScanEntries(ps, Tick(vc, rank, e.source, PS.GetSelfProcess(ps).value.addr), entries[1..]);
            Scan(rest.vc, [Deliver(e.source, body)] + rest.out, [true] + rest.marks, rest.raised)
  }

  /** The entries whose mark is false, in their order. */
  function Kept(entries: seq<Entry>, marks: seq<bool>): (r: seq<Entry>)
    requires |marks| == |entries|
    ensures |r| <= |entries|
    decreases |entries|
  {
    if entries == [] then []
    else
      var n := |entries| - 1;
      Kept(entries[..n], marks[..n]) + (if marks[n] then [] else [entries[n]])
  }

  /** The entries whose mark is true, in their order. */
  function Taken(entries: seq<Entry>, marks: seq<bool>): (r: seq<Entry>)
    requires |marks| == |entries|
    ensures |r| + |Kept(entries, marks)| == |entries|
    decreases |entries|
  {
    if entries == [] then []
    else
      var n := |entries| - 1;
      Taken(entries[..n], marks[..n]) + (if marks[n] then [entries[n]] else [])
  }

  /**
   * The removal loop of `checkPending`: the `k`-th entry, when marked, is
   * removed at index `k - countRemoved` of the shrinking list.
   */
  method RemoveMarked(entries: seq<Entry>, marks: seq<bool>) returns (r: seq<Entry>)
    requires |marks| == |entries|
    ensures r == Kept(entries, marks)
  {
    r := entries;
    var countRemoved := 0;
    var k := 0;
    while k < |marks|
      invariant 0 <= k <= |marks|
      invariant countRemoved == k - |Kept(entries[..k], marks[..k])|
      invariant r == Kept(entries[..k], marks[..k]) + entries[k..]
    {
      KeptStep(entries, marks, k);
      DropAt(Kept(entries[..k], marks[..k]), entries[k..]);
      assert entries[k..][1..] == entries[k + 1..];
      if marks[k] {
        r := r[..k - countRemoved] + r[k - countRemoved + 1..];
        countRemoved := countRemoved + 1;
      }
      k := k + 1;
    }
    assert entries[..k] == entries && marks[..k] == marks;
  }

  /** One more entry scanned: it is kept exactly when it is not marked. */
  lemma KeptStep(entries: seq<Entry>, marks: seq<bool>, k: nat)
    requires |marks| == |entries| && k < |entries|
    ensures Kept(entries[..k + 1], marks[..k + 1]) == Kept(entries[..k], marks[..k]) + (if marks[k] then [] else [entries[k]])
  {
    assert entries[..k + 1][..k] == entries[..k] && marks[..k + 1][..k] == marks[..k];
  }

  /** Removing the first element of the tail of a sequence. */
  lemma DropAt(before: seq<Entry>, tail: seq<Entry>)
    requires tail != []
    ensures var r := before + tail;
      && r[|before|] == tail[0]
      && r[..|before|] + r[|before| + 1..] == before + tail[1..]
      && r == (before + [tail[0]]) + tail[1..]
  {
    var r := before + tail;
    assert r[..|before|] == before;
    assert r[|before| + 1..] == tail[1..];
  }

  /** The outcome of a check of the pending list. */
  datatype Check = Check(vc: seq<int>, out: seq<Out>, pending: seq<Entry>, raised: bool)

  /**
   * `checkPending` as written: one scan, then the delivered entries removed.
   * A raise mid-scan leaves the list as it was, the clock as it stands.
   */
  function CheckOnce(ps: PS.ProcessSet, vc: seq<int>, pending: seq<Entry>): (r: Check)
    ensures |r.vc| == |vc| && forall k :: 0 <= k < |vc| ==> r.vc[k] >= vc[k]
    ensures forall i :: 0 <= i < |r.out| ==> r.out[i].Deliver?
  {
    var sc := ScanEntries(ps, vc, pending);
    if sc.raised then Check(sc.vc, sc.out, pending, true)
    else Check(sc.vc, sc.out, Kept(pending, sc.marks), false)
  }

  /**
   * The outcome of the scan at one entry: it stops the scan, after the
   * deliveries listed, or the scan goes on with the clock given, after the
   * deliveries listed, the entry marked as delivered or not.
   */
  datatype Head = Halt(out: seq<Out>) | Go(vc: seq<int>, out: seq<Out>, mark: bool)

  function HeadOf(ps: PS.ProcessSet, cur: seq<int>, e: Entry): (h: Head)
  {
    match PopClock(e.m)
    case None => Halt([])
    case Some((clk, body)) =>
      var rank := PS.GetRank(ps, e.source);
      match CanDeliver(cur, rank, clk)
      case None => Halt([])
      case Some(false) => Go(cur, [], false)
      case Some(true) =>
        if !(0 <= ps.self < PS.Size(ps)) || PS.GetSelfProcess(ps).None? then Halt([Deliver(e.source, body)])
        else Go(Tick(cur, rank, e.source, PS.GetSelfProcess(ps).value.addr), [Deliver(e.source, body)], true)
  }

  /** The scan of a non-empty list, by the outcome at its first entry. */
  lemma ScanFirst(ps: PS.ProcessSet, cur: seq<int>, entries: seq<Entry>)
    requires entries != []
    ensures var t := ScanEntries(ps, cur, entries);
      var h := HeadOf(ps, cur, entries[0]);
      && (h.Halt? ==> t == Scan(cur, h.out, [], true))
      && (h.Go? ==>
            var u := ScanEntries(ps, h.vc, entries[1..]);
            t == Scan(u.vc, h.out + u.out, [h.mark] + u.marks, u.raised))
  {
  }

  /** One entry of the scanning loop: the clock popped and checked, the entry delivered when it can go. */
  method ScanHead(ps: PS.ProcessSet, cur: seq<int>, e: Entry) returns (h: Head)
    ensures h == HeadOf(ps, cur, e)
  {
    var popped := PopClock(e.m);
    if popped.None? {
      return Halt([]);
    }
    var (clk, body) := popped.value;
    var rank := PS.GetRank(ps, e.source);
    var ok := CanDeliver(cur, rank, clk);
    if ok.None? {
      return Halt([]);
    }
    if !ok.value {
      return Go(cur, [], false);
    }
    if !(0 <= ps.self < PS.Size(ps)) || PS.GetSelfProcess(ps).None? {
      return Halt([Deliver(e.source, body)]);
    }
    h := Go(Tick(cur, rank, e.source, PS.GetSelfProcess(ps).value.addr), [Deliver(e.source, body)], true);
  }

  /**
   * The scanning loop of `checkPending`: entry by entry in list order, the
   * clock popped, checked against the clock as it stands, and the entry
   * delivered and marked when it can go.
   */
  method ScanLoop(ps: PS.ProcessSet, vc: seq<int>, pending: seq<Entry>) returns (r: Scan)
    ensures r == ScanEntries(ps, vc, pending)
  {
    var cur: seq<int>, out: seq<Out>, marks: seq<bool> := vc, [], [];
    var i := 0;
    while i < |pending|
      invariant 0 <= i <= |pending|
      invariant Resumes(ScanEntries(ps, vc, pending), out, marks, ScanEntries(ps, cur, pending[i..]))
    {
      var h := ScanHead(ps, cur, pending[i]);
      assert pending[i..][1..] == pending[i + 1..] && pending[i..][0] == pending[i];
      ScanFirst(ps, cur, pending[i..]);
      if h.Halt? {
        ResumesHalt(ScanEntries(ps, vc, pending), out, marks, cur, h.out);
        return Scan(cur, out + h.out, marks, true);
      }
      ResumesShift(ScanEntries(ps, vc, pending), out, marks, h.out, h.mark, ScanEntries(ps, h.vc, pending[i + 1..]));
      cur, out, marks := h.vc, out + h.out, marks + [h.mark];
      i := i + 1;
    }
    assert pending[i..] == [];
    r := Scan(cur, out, marks, false);
  }

  /** The whole scan is what was gathered so far followed by the scan of the rest. */
  predicate Resumes(whole: Scan, out: seq<Out>, marks: seq<bool>, t: Scan)
  {
    whole == Scan(t.vc, out + t.out, marks + t.marks, t.raised)
  }

  lemma ResumesShift(whole: Scan, out: seq<Out>, marks: seq<bool>, o: seq<Out>, b: bool, u: Scan)
    requires Resumes(whole, out, marks, Scan(u.vc, o + u.out, [b] + u.marks, u.raised))
    ensures Resumes(whole, out + o, marks + [b], u)
  {
    assert (out + o) + u.out == out + (o + u.out);
    assert (marks + [b]) + u.marks == marks + ([b] + u.marks);
  }

  lemma ResumesHalt(whole: Scan, out: seq<Out>, marks: seq<bool>, cur: seq<int>, o: seq<Out>)
    requires Resumes(whole, out, marks, Scan(cur, o, [], true))
    ensures whole == Scan(cur, out + o, marks, true)
  {
    assert marks + [] == marks;
  }

  /** `checkPending` as written, the two loops of the source one after the other. */
  method CheckPending(ps: PS.ProcessSet, vc: seq<int>, pending: seq<Entry>) returns (r: Check)
    ensures r == CheckOnce(ps, vc, pending)
  {
    var sc := ScanLoop(ps, vc, pending);
    if sc.raised {
      return Check(sc.vc, sc.out, pending, true);
    }
    var kept := RemoveMarked(pending, sc.marks);
    r := Check(sc.vc, sc.out, kept, false);
  }

  /** No mark is set. */
  predicate NoneMarked(marks: seq<bool>)
  {
    forall i :: 0 <= i < |marks| ==> !marks[i]
  }

  /**
   * `checkPending` as evidently intended: scans repeat until one delivers
   * nothing, so that no deliverable message is left waiting.
   */
  function CheckUntilStable(ps: PS.ProcessSet, vc: seq<int>, pending: seq<Entry>): (r: Check)
    ensures |r.vc| == |vc| && forall k :: 0 <= k < |vc| ==> r.vc[k] >= vc[k]
    ensures forall i :: 0 <= i < |r.out| ==> r.out[i].Deliver?
    decreases |pending|
  {
    var sc := ScanEntries(ps, vc, pending);
    if sc.raised then Check(sc.vc, sc.out, pending, true)
    else if NoneMarked(sc.marks) then Check(sc.vc, sc.out, pending, false)
    else
      KeptShrinks(pending, sc.marks);
      var rest := CheckUntilStable(ps, sc.vc, Kept(pending, sc.marks));
      Check(rest.vc, sc.out + rest.out, rest.pending, rest.raised)
  }

  /** Removing at least one marked entry shortens the list. */
  lemma {:induction false} KeptShrinks(entries: seq<Entry>, marks: seq<bool>)
    requires |marks| == |entries| && !NoneMarked(marks)
    ensures |Kept(entries, marks)| < |entries|
    decreases |entries|
  {
    var n := |entries| - 1;
    if !marks[n] {
      assert !NoneMarked(marks[..n]) by {
        var i :| 0 <= i < |marks| && marks[i];
        assert marks[..n][i];
      }
      KeptShrinks(entries[..n], marks[..n]);
    }
  }

  /** Which check follows a delivery from the network. */
  type Checker = (PS.ProcessSet, seq<int>, seq<Entry>) -> Check

  /** `handleSendableEventDOWN`: count the send at the local rank and push a copy of the clock. */
  function OnDown(s: State, m: Message): (r: Step)
    ensures r.raised <==> s.correct.None? || s.vc.None? || !(0 <= s.correct.value.self < |s.vc.value|)
    ensures r.raised ==> r == Step(s, [], true)
    ensures !r.raised ==>
      var me := s.correct.value.self;
      && r.s.correct == s.correct && r.s.pending == s.pending
      && r.s.vc.Some? && |r.s.vc.value| == |s.vc.value|
      && r.s.vc.value[me] == s.vc.value[me] + 1
      && (forall k :: 0 <= k < |s.vc.value| && k != me ==> r.s.vc.value[k] == s.vc.value[k])
      && |r.out| == 1 && r.out[0].Send? && PopClock(r.out[0].m) == Some((r.s.vc.value, m))
  {
    if s.correct.None? || s.vc.None? || !(0 <= s.correct.value.self < |s.vc.value|) then Step(s, [], true)
    else
      var rank := s.correct.value.self;
      var vc := s.vc.value[rank := s.vc.value[rank] + 1];
      PopClockPush(m, vc);
      Step(s.(vc := Some(vc)), [Send(Push(m, ClockItem(vc)))], false)
  }

  /**
   * `handleSendableEventUP`: a deliverable message goes up, is counted and
   * the pending list checked; another waits at the end of the pending list
   * with its clock back on its stack.
   */
  function OnUp(s: State, source: Addr, m: Message, check: Checker): (r: Step)
    ensures PopClock(m).None? || s.correct.None? || s.vc.None? ==> r == Step(s, [], true)
    ensures r.s.correct == s.correct
    ensures r.out != [] ==>
      && PopClock(m).Some? && s.correct.Some? && s.vc.Some?
      && Deliverable(s.vc.value, PS.GetRank(s.correct.value, source), PopClock(m).value.0)
      && r.out[0] == Deliver(source, PopClock(m).value.1)
    ensures !r.raised && r.out == [] ==>
      && s.pending.Some? && s.correct.Some? && s.vc.Some? && PopClock(m).Some?
      && CanDeliver(s.vc.value, PS.GetRank(s.correct.value, source), PopClock(m).value.0) == Some(false)
      && r.s == s.(pending := Some(s.pending.value + [Entry(source, m)]))
  {
    match PopClock(m)
    case None => Step(s, [], true)
    case Some((clk, body)) =>
      if s.correct.None? || s.vc.None? then Step(s, [], true)
      else
        var ps, vc := s.correct.value, s.vc.value;
        var rank := PS.GetRank(ps, source);
        match CanDeliver(vc, rank, clk)
        case None => Step(s, [], true)
        case Some(false) =>
          if s.pending.None? then Step(s, [], true)
          else Step(s.(pending := Some(s.pending.value + [Entry(source, m)])), [], false)
        case Some(true) =>
          if !(0 <= ps.self < PS.Size(ps)) || PS.GetSelfProcess(ps).None? then Step(s, [Deliver(source, body)], true)
          else
            var vc1 := Tick(vc, rank, source, PS.GetSelfProcess(ps).value.addr);
            if s.pending.None? then Step(s.(vc := Some(vc1)), [Deliver(source, body)], true)
            else
              var c := check(ps, vc1, s.pending.value);
              Step(s.(vc := Some(c.vc), pending := Some(c.pending)), [Deliver(source, body)] + c.out, c.raised)
  }

  /**
   * `handle`, with the check that follows a delivery as a parameter: only a
   * send goes down, carrying the clock as it now stands; only an arrival
   * delivers, and first the arriving message, when its clock allows it.
   */
  function HandleWith(s: State, e: Event, check: Checker): (r: Step)
    ensures r.s.correct == (if e.ProcessInit? then Some(e.ps) else s.correct)
    ensures e.Down? ==> forall i :: 0 <= i < |r.out| && r.out[i].Send? ==>
      r.s.vc.Some? && PopClock(r.out[i].m) == Some((r.s.vc.value, e.m))
    ensures forall i :: 0 <= i < |r.out| && r.out[i].Deliver? ==> e.Up?
    ensures e.Up? && r.out != [] ==>
      && PopClock(e.m).Some? && s.correct.Some? && s.vc.Some?
      && Deliverable(s.vc.value, PS.GetRank(s.correct.value, e.source), PopClock(e.m).value.0)
  {
    match e
    case ChannelInit => Step(s.(pending := Some([])), [Pass], false)
    case ProcessInit(ps) => Step(s.(correct := Some(ps), vc := Some(Zeros(PS.Size(ps)))), [Pass], false)
    case Down(m) => OnDown(s, m)
    case Up(source, m) => OnUp(s, source, m, check)
    case Other => Step(s, [Pass], false)
  }

  /** The session as written: one scan of the pending list per delivery. */
  function HandleAsWritten(s: State, e: Event): (r: Step)
    ensures !e.ProcessInit? && s.vc.Some? ==>
      && r.s.vc.Some? && |r.s.vc.value| == |s.vc.value|
      && forall k :: 0 <= k < |s.vc.value| ==> r.s.vc.value[k] >= s.vc.value[k]
    ensures forall i :: 0 <= i < |r.out| && r.out[i].Send? ==>
      e.Down? && r.s.vc.Some? && PopClock(r.out[i].m) == Some((r.s.vc.value, e.m))
  {
    HandleWith(s, e, CheckOnce)
  }

  /** The session with the pending list checked until nothing more can go. */
  function Handle(s: State, e: Event): (r: Step)
    ensures !e.ProcessInit? && s.vc.Some? ==>
      && r.s.vc.Some? && |r.s.vc.value| == |s.vc.value|
      && forall k :: 0 <= k < |s.vc.value| ==> r.s.vc.value[k] >= s.vc.value[k]
    ensures forall i :: 0 <= i < |r.out| && r.out[i].Send? ==>
      e.Down? && r.s.vc.Some? && PopClock(r.out[i].m) == Some((r.s.vc.value, e.m))
  {
    HandleWith(s, e, CheckUntilStable)
  }

  /** The clock starts as one zero per process of the set. */
  lemma ClockStartsAtZero(s: State, ps: PS.ProcessSet)
    ensures var r := Handle(s, ProcessInit(ps));
      && r.s.vc.Some? && |r.s.vc.value| == PS.Size(ps)
      && forall k :: 0 <= k < PS.Size(ps) ==> r.s.vc.value[k] == 0
  {
  }

  /** A send counts exactly one more at the local rank, and the message carries the clock so counted. */
  lemma SendTicksOwnEntry(s: State, m: Message)
    requires s.correct.Some? && s.vc.Some? && 0 <= s.correct.value.self < |s.vc.value|
    ensures var r := Handle(s, Down(m));
      var me := s.correct.value.self;
      && !r.raised && r.s.vc.Some? && |r.s.vc.value| == |s.vc.value|
      && r.s.vc.value[me] == s.vc.value[me] + 1
      && (forall k :: 0 <= k < |s.vc.value| && k != me ==> r.s.vc.value[k] == s.vc.value[k])
      && r.out == [Send(Push(m, ClockItem(r.s.vc.value)))]
      && PopClock(r.out[0].m) == Some((r.s.vc.value, m))
  {
    var r := Handle(s, Down(m));
    PopClockPush(m, r.s.vc.value);
  }

  /** Clock entries never decrease, whatever the event (a new ProcessInit starts a new clock). */
  lemma ClockNeverDecreases(s: State, e: Event)
    requires !e.ProcessInit?
    ensures var r := Handle(s, e);
      s.vc.Some? ==>
        && r.s.vc.Some? && |r.s.vc.value| == |s.vc.value|
        && forall k :: 0 <= k < |s.vc.value| ==> r.s.vc.value[k] >= s.vc.value[k]
  {
  }

  /** A message that cannot be delivered waits at the end of the pending list, exactly as it arrived. */
  lemma UndeliverableWaits(s: State, source: Addr, body: Message, clk: seq<int>)
    requires s.correct.Some? && s.vc.Some? && s.pending.Some?
    requires CanDeliver(s.vc.value, PS.GetRank(s.correct.value, source), clk) == Some(false)
    ensures var r := Handle(s, Up(source, Push(body, ClockItem(clk))));
      && !r.raised && r.out == []
      && r.s == s.(pending := Some(s.pending.value + [Entry(source, Push(body, ClockItem(clk)))]))
      && PopClock(r.s.pending.value[|s.pending.value|].m) == Some((clk, body))
  {
    PopClockPush(body, clk);
  }

  /**
   * A deliverable message goes up first, without its clock, and counts one
   * more at its sender's rank unless the local process sent it.
   */
  lemma DeliverableGoesUp(s: State, source: Addr, body: Message, clk: seq<int>)
    requires s.correct.Some? && s.vc.Some? && s.pending.Some?
    requires 0 <= s.correct.value.self < PS.Size(s.correct.value) && PS.GetSelfProcess(s.correct.value).Some?
    requires Deliverable(s.vc.value, PS.GetRank(s.correct.value, source), clk)
    ensures var r := HandleAsWritten(s, Up(source, Push(body, ClockItem(clk))));
      var rank := PS.GetRank(s.correct.value, source);
      var me := PS.GetSelfProcess(s.correct.value).value.addr;
      && r.out[0] == Deliver(source, body)
      && r == (var c := CheckOnce(s.correct.value, Tick(s.vc.value, rank, source, me), s.pending.value);
               Step(s.(vc := Some(c.vc), pending := Some(c.pending)), [Deliver(source, body)] + c.out, c.raised))
  {
    PopClockPush(body, clk);
  }

  /** A delivery, for every entry the scan marks; in list order. */
  function Deliveries(entries: seq<Entry>, marks: seq<bool>): (r: seq<Out>)
    requires |marks| == |entries|
    decreases |entries|
  {
    if entries == [] then []
    else
      var rest := Deliveries(entries[1..], marks[1..]);
      if marks[0] && PopClock(entries[0].m).Some? then [Deliver(entries[0].source, PopClock(entries[0].m).value.1)] + rest else rest
  }

  /** The entries delivered by a scan, on the path without a raise, are exactly the marked ones, in list order. */
  lemma {:induction false} ScanDeliversMarked(ps: PS.ProcessSet, vc: seq<int>, entries: seq<Entry>)
    ensures var r := ScanEntries(ps, vc, entries);
      !r.raised ==> r.out == Deliveries(entries, r.marks)
    decreases |entries|
  {
    if entries != [] {
      var e := entries[0];
      match PopClock(e.m)
      case None =>
      case Some((clk, body)) =>
        var rank := PS.GetRank(ps, e.source);
        match CanDeliver(vc, rank, clk)
        case None =>
        case Some(false) =>
          ScanDeliversMarked(ps, vc, entries[1..]);
          var r := ScanEntries(ps, vc, entries);
          if !r.raised {
            assert r.marks[1..] == ScanEntries(ps, vc, entries[1..]).marks;
          }
        case Some(true) =>
          if 0 <= ps.self < PS.Size(ps) && PS.GetSelfProcess(ps).Some? {
            var vc1 := Tick(vc, rank, e.source, PS.GetSelfProcess(ps).value.addr);
            ScanDeliversMarked(ps, vc1, entries[1..]);
            var r := ScanEntries(ps, vc, entries);
            if !r.raised {
              assert r.marks[1..] == ScanEntries(ps, vc1, entries[1..]).marks;
            }
          }
    }
  }

  /**
   * One check keeps exactly the entries it did not deliver, in their order;
   * the kept and delivered entries together are the whole list.
   */
  lemma CheckOnceSplits(ps: PS.ProcessSet, vc: seq<int>, pending: seq<Entry>)
    ensures var r := CheckOnce(ps, vc, pending);
      var sc := ScanEntries(ps, vc, pending);
      !r.raised ==>
        && r.pending == Kept(pending, sc.marks)
        && r.out == Deliveries(pending, sc.marks)
        && |r.pending| + |Taken(pending, sc.marks)| == |pending|
  {
    ScanDeliversMarked(ps, vc, pending);
  }

  /** A scan that marks nothing sees every entry undeliverable under the clock it ends with, which is the clock it started with. */
  lemma {:induction false} QuietScanStable(ps: PS.ProcessSet, vc: seq<int>, entries: seq<Entry>)
    requires var r := ScanEntries(ps, vc, entries); !r.raised && NoneMarked(r.marks)
    ensures ScanEntries(ps, vc, entries).vc == vc
    ensures forall i :: 0 <= i < |entries| ==>
      PopClock(entries[i].m).Some? && CanDeliver(vc, PS.GetRank(ps, entries[i].source), PopClock(entries[i].m).value.0) == Some(false)
    decreases |entries|
  {
    if entries != [] {
      var r := ScanEntries(ps, vc, entries);
      assert !r.marks[0];
      var clk := PopClock(entries[0].m).value.0;
      assert CanDeliver(vc, PS.GetRank(ps, entries[0].source), clk) == Some(false);
      var rest := ScanEntries(ps, vc, entries[1..]);
      assert r.marks == [false] + rest.marks;
      assert NoneMarked(rest.marks) by {
        forall i | 0 <= i < |rest.marks| ensures !rest.marks[i] {
          assert rest.marks[i] == r.marks[i + 1];
        }
      }
      QuietScanStable(ps, vc, entries[1..]);
      forall i | 1 <= i < |entries|
        ensures PopClock(entries[i].m).Some? && CanDeliver(vc, PS.GetRank(ps, entries[i].source), PopClock(entries[i].m).value.0) == Some(false)
      {
        assert entries[i] == entries[1..][i - 1];
      }
    }
  }

  /**
   * The corrected check leaves nothing deliverable behind: every message
   * still pending waits for a message not yet delivered.
   */
  lemma {:induction false} StableLeavesNothingDeliverable(ps: PS.ProcessSet, vc: seq<int>, pending: seq<Entry>)
    ensures var r := CheckUntilStable(ps, vc, pending);
      !r.raised ==> forall i :: 0 <= i < |r.pending| ==>
        PopClock(r.pending[i].m).Some? && !Deliverable(r.vc, PS.GetRank(ps, r.pending[i].source), PopClock(r.pending[i].m).value.0)
    decreases |pending|
  {
    var sc := ScanEntries(ps, vc, pending);
    if !sc.raised {
      if NoneMarked(sc.marks) {
        QuietScanStable(ps, vc, pending);
      } else {
        KeptShrinks(pending, sc.marks);
        StableLeavesNothingDeliverable(ps, sc.vc, Kept(pending, sc.marks));
      }
    }
  }

  // A concrete run: three processes, the local one at rank 2; the process
  // at address 0 sent three messages, which arrive in reverse order.

  function Body(n: int): Message
  {
    [IntItem(n)]
  }

  function Stamped(n: int): Message
  {
    Push(Body(n), ClockItem([n, 0, 0]))
  }

  function Start(): State
  {
    State(Some(PS.ThreeCorrect()), Some([]), Some([0, 0, 0]))
  }

  /** The facts the run below rests on: the three stamped messages parse, and the local process is at address 2. */
  lemma RunFacts()
    ensures PS.GetRank(PS.ThreeCorrect(), 0) == 0
    ensures 0 <= PS.ThreeCorrect().self < PS.Size(PS.ThreeCorrect()) && PS.GetSelfProcess(PS.ThreeCorrect()) == Some(PS.Process(2, 2, true, true))
    ensures forall n :: PopClock(Stamped(n)) == Some(([n, 0, 0], Body(n)))
    ensures forall vc :: ScanEntries(PS.ThreeCorrect(), vc, []) == Scan(vc, [], [], false)
  {
    forall n ensures PopClock(Stamped(n)) == Some(([n, 0, 0], Body(n))) {
      PopClockPush(Body(n), [n, 0, 0]);
    }
  }

  /** After the third and second messages: both wait. */
  function TwoWaiting(): State
  {
    State(Some(PS.ThreeCorrect()), Some([Entry(0, Stamped(3)), Entry(0, Stamped(2))]), Some([0, 0, 0]))
  }

  lemma TwoWaitingReached()
    ensures var a := Handle(Start(), Up(0, Stamped(3)));
      var b := Handle(a.s, Up(0, Stamped(2)));
      !a.raised && !b.raised && b.s == TwoWaiting()
      && HandleAsWritten(Start(), Up(0, Stamped(3))) == a
      && HandleAsWritten(a.s, Up(0, Stamped(2))) == b
  {
    RunFacts();
    assert PopClock(Stamped(3)) == Some(([3, 0, 0], Body(3)));
    assert PopClock(Stamped(2)) == Some(([2, 0, 0], Body(2)));
    assert CanDeliver([0, 0, 0], 0, [3, 0, 0]) == Some(false);
    assert CanDeliver([0, 0, 0], 0, [2, 0, 0]) == Some(false);
    var a := Handle(Start(), Up(0, Stamped(3)));
    assert Start().correct.value == PS.ThreeCorrect() && Start().vc.value == [0, 0, 0];
    assert Start().pending.value + [Entry(0, Stamped(3))] == [Entry(0, Stamped(3))];
    assert a == OnUp(Start(), 0, Stamped(3), CheckUntilStable);
    assert a.s == Start().(pending := Some([Entry(0, Stamped(3))]));
    assert [Entry(0, Stamped(3))] + [Entry(0, Stamped(2))] == TwoWaiting().pending.value;
  }

  /**
   * As written, the first message then delivers itself and the second, but
   * the single scan has already passed the third, which stays pending
   * although it is deliverable; without further traffic it never goes up.
   */
  lemma AsWrittenLeavesDeliverable()
    ensures var r := HandleAsWritten(TwoWaiting(), Up(0, Stamped(1)));
      && !r.raised && r.s.vc == Some([2, 0, 0])
      && r.s.pending == Some([Entry(0, Stamped(3))])
      && Deliverable([2, 0, 0], 0, [3, 0, 0])
  {
    FirstArrives(CheckOnce);
    FirstRescan();
    assert CanDeliver([2, 0, 0], 0, [3, 0, 0]) == Some(true);
  }

  /** The first rescan after the first message: the second message goes up, the third still waits. */
  lemma FirstRescan()
    ensures var pending := [Entry(0, Stamped(3)), Entry(0, Stamped(2))];
      && ScanEntries(PS.ThreeCorrect(), [1, 0, 0], pending) == Scan([2, 0, 0], [Deliver(0, Body(2))], [false, true], false)
      && Kept(pending, [false, true]) == [Entry(0, Stamped(3))]
  {
    var ps := PS.ThreeCorrect();
    RunFacts();
    assert PopClock(Stamped(2)) == Some(([2, 0, 0], Body(2)));
    assert PopClock(Stamped(3)) == Some(([3, 0, 0], Body(3)));
    var pending := [Entry(0, Stamped(3)), Entry(0, Stamped(2))];
    assert CanDeliver([1, 0, 0], 0, [3, 0, 0]) == Some(false);
    assert CanDeliver([1, 0, 0], 0, [2, 0, 0]) == Some(true);
    assert pending[1..][1..] == [] && pending[1..][0] == Entry(0, Stamped(2));
    assert Tick([1, 0, 0], 0, 0, 2) == [2, 0, 0];
    assert ScanEntries(ps, [2, 0, 0], []) == Scan([2, 0, 0], [], [], false);
    var sc2 := ScanEntries(ps, [1, 0, 0], pending[1..]);
    assert sc2 == Scan([2, 0, 0], [Deliver(0, Body(2))], [true], false);
    var kept := [Entry(0, Stamped(3))];
    assert Kept(pending, [false, true]) == kept by {
      assert pending[..1] == kept;
      assert Kept(pending[..1], [false]) == kept by {
        assert pending[..1][..0] == [];
      }
    }
  }

  /** The second rescan: the third message goes up and the list is empty. */
  lemma SecondRescan()
    ensures CheckUntilStable(PS.ThreeCorrect(), [2, 0, 0], [Entry(0, Stamped(3))])
            == Check([3, 0, 0], [Deliver(0, Body(3))], [], false)
  {
    var ps := PS.ThreeCorrect();
    RunFacts();
    assert PopClock(Stamped(3)) == Some(([3, 0, 0], Body(3)));
    assert CanDeliver([2, 0, 0], 0, [3, 0, 0]) == Some(true);
    var kept := [Entry(0, Stamped(3))];
    assert kept[1..] == [];
    assert Tick([2, 0, 0], 0, 0, 2) == [3, 0, 0];
    var sc3 := ScanEntries(ps, [2, 0, 0], kept);
    assert sc3 == Scan([3, 0, 0], [Deliver(0, Body(3))], [true], false);
    assert !NoneMarked(sc3.marks) by { assert sc3.marks[0]; }
    assert Kept(kept, [true]) == [] by {
      assert kept[..0] == [];
    }
    assert CheckUntilStable(ps, [3, 0, 0], []) == Check([3, 0, 0], [], [], false);
  }

  /** Checking until stable after the first message empties the list. */
  lemma StableTail()
    ensures CheckUntilStable(PS.ThreeCorrect(), [1, 0, 0], [Entry(0, Stamped(3)), Entry(0, Stamped(2))])
            == Check([3, 0, 0], [Deliver(0, Body(2)), Deliver(0, Body(3))], [], false)
  {
    FirstRescan();
    SecondRescan();
    var sc := ScanEntries(PS.ThreeCorrect(), [1, 0, 0], [Entry(0, Stamped(3)), Entry(0, Stamped(2))]);
    assert !NoneMarked(sc.marks) by { assert sc.marks[1]; }
  }

  /** The first message is delivered at once and hands the ticked clock and both waiting entries to the check. */
  lemma FirstArrives(check: Checker)
    ensures var c := check(PS.ThreeCorrect(), [1, 0, 0], [Entry(0, Stamped(3)), Entry(0, Stamped(2))]);
      HandleWith(TwoWaiting(), Up(0, Stamped(1)), check)
      == Step(TwoWaiting().(vc := Some(c.vc), pending := Some(c.pending)), [Deliver(0, Body(1))] + c.out, c.raised)
  {
    RunFacts();
    assert PopClock(Stamped(1)) == Some(([1, 0, 0], Body(1)));
    assert CanDeliver([0, 0, 0], 0, [1, 0, 0]) == Some(true);
    assert Tick([0, 0, 0], 0, 0, 2) == [1, 0, 0];
  }

  /** With the pending list checked until stable, all three messages go up and nothing waits. */
  lemma StableDeliversAll()
    ensures var r := Handle(TwoWaiting(), Up(0, Stamped(1)));
      && !r.raised && r.s.vc == Some([3, 0, 0]) && r.s.pending == Some([])
      && r.out == [Deliver(0, Body(1)), Deliver(0, Body(2)), Deliver(0, Body(3))]
  {
    FirstArrives(CheckUntilStable);
    StableTail();
    assert [Deliver(0, Body(1))] + [Deliver(0, Body(2)), Deliver(0, Body(3))]
        == [Deliver(0, Body(1)), Deliver(0, Body(2)), Deliver(0, Body(3))];
  }
}
