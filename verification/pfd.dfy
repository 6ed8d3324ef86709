/**
 * The perfect failure detector over TCP: once started, a report that the
 * transport could not deliver to an address turns the process holding that
 * address into a crashed one and announces the crash upwards, once per
 * process.
 */
module TcpBasedPFD {
  import opened Common
  import PS = ProcessSet

  datatype State = State(started: bool, processes: Option<PS.ProcessSet>)

  datatype Event = ChannelInit | ProcessInit(ps: PS.ProcessSet) | Start | Undelivered(failed: Addr) | Other

  /** `Pass`: the handled event goes on; `CreateChannels` goes down after a start. */
  datatype Out = Pass | CreateChannels | Crash(number: int)

  datatype Step = Step(s: State, out: seq<Out>, raised: bool)

  /** Not started, no process set yet. */
  function Init(): (s: State)
    ensures !s.started && s.processes.None?
  {
    State(false, None)
  }

  /**
   * `notifyCrash` on a process set: the rank of the process holding the
   * failed address, if it was correct and is now marked crashed; `raised`
   * when no process holds the address (`p.isCorrect()` on `null`).
   */
  function Notify(ps: PS.ProcessSet, failed: Addr): (r: (PS.ProcessSet, Option<int>, bool))
    ensures var rank := PS.GetRank(ps, failed);
      && (r.2 <==> rank < 0)
      && (r.1.Some? <==> PS.IsCorrect(ps, rank))
      && (r.1.Some? ==> r.1.value == rank && Some(r.0) == PS.MarkCrashed(ps, rank))
      && (r.1.None? ==> r.0 == ps)
  {
    var rank := PS.GetRank(ps, failed);
    if rank < 0 then (ps, None, true)
    else if ps.procs[rank].value.correct then (PS.MarkCrashed(ps, rank).value, Some(rank), false)
    else (ps, None, false)
  }

  /** `handle`: events of any other kind are swallowed. */
  function Handle(s: State, e: Event): (r: Step)
    ensures e.ChannelInit? ==> r == Step(s, [Pass], false)
    ensures e.ProcessInit? ==> r == Step(s.(processes := Some(e.ps)), [Pass], false)
    ensures e.Start? ==> r == Step(s.(started := true), [Pass, CreateChannels], false)
    ensures e.Other? ==> r == Step(s, [], false)
    ensures e.Undelivered? && !s.started ==> r == Step(s, [], false)
    ensures e.Undelivered? && s.started ==>
      && r.s.started
      && (s.processes.None? ==> r == Step(s, [], true))
      && (s.processes.Some? ==>
           var n := Notify(s.processes.value, e.failed);
           && r.s.processes == Some(n.0) && r.raised == n.2
           && r.out == if n.1.Some? then [Crash(s.processes.value.procs[n.1.value].value.number)] else [])
  {
    match e
    case ChannelInit => Step(s, [Pass], false)
    case ProcessInit(ps) => Step(s.(processes := Some(ps)), [Pass], false)
    case Start => Step(s.(started := true), [Pass, CreateChannels], false)
    case Other => Step(s, [], false)
    case Undelivered(failed) =>
      if !s.started then Step(s, [], false)
      else if s.processes.None? then Step(s, [], true)
      else
        var n := Notify(s.processes.value, failed);
        var out := if n.1.Some? then [Crash(s.processes.value.procs[n.1.value].value.number)] else [];
        Step(s.(processes := Some(n.0)), out, n.2)
  }

  /** The ranks announced crashed by a run of failure reports, in order. */
  function NotifyRun(ps: PS.ProcessSet, failed: seq<Addr>): (r: (PS.ProcessSet, seq<int>))
    decreases |failed|
  {
    if failed == [] then (ps, [])
    else
      var n := Notify(ps, failed[0]);
      var rest := NotifyRun(n.0, failed[1..]);
      (rest.0, (if n.1.Some? then [n.1.value] else []) + rest.1)
  }

  /**
   * A run of failure reports announces each process at most once, only
   * processes that were correct before the run, and leaves every announced
   * process marked crashed.
   */
  lemma {:induction false} AnnouncedOnce(ps: PS.ProcessSet, failed: seq<Addr>)
    ensures var r := NotifyRun(ps, failed);
      && |r.0.procs| == |ps.procs|
      && (forall i, j :: 0 <= i < j < |r.1| ==> r.1[i] != r.1[j])
      && (forall k :: k in r.1 ==> PS.IsCorrect(ps, k) && !PS.IsCorrect(r.0, k))
      && (forall k :: PS.IsCorrect(r.0, k) ==> PS.IsCorrect(ps, k))
    decreases |failed|
  {
    if failed != [] {
      var n := Notify(ps, failed[0]);
      AnnouncedOnce(n.0, failed[1..]);
      var rest := NotifyRun(n.0, failed[1..]);
      if n.1.Some? {
        var k := n.1.value;
        assert !PS.IsCorrect(n.0, k);
        assert k !in rest.1;
        var r := NotifyRun(ps, failed);
        assert r.1 == [k] + rest.1;
        forall i, j | 0 <= i < j < |r.1|
          ensures r.1[i] != r.1[j]
        {
          if i == 0 {
            assert r.1[j] == rest.1[j - 1];
          } else {
            assert r.1[i] == rest.1[i - 1] && r.1[j] == rest.1[j - 1];
          }
        }
      }
    }
  }
}
