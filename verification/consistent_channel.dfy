/**
 * The machinery shared by the three Byzantine consistent channel sessions: one
 * echo broadcast instance per process, indexed by rank, a counter of
 * deliveries per rank, the `ready` flag that lets one broadcast of the local
 * process be in progress at a time, and the once-only wiring of the child
 * channels. The instance type `I` is the echo broadcast state of the variant;
 * the variant passes the instance's `reset` as a function.
 */
module ConsistentChannel {
  import opened Common
  import PS = ProcessSet

  /**
   * `processes`, `ready`, `childChannelsReady` (here `wired`), the delivery
   * counters `sequenceNumbers` and the instances `bcbs`, one per rank.
   */
  datatype Channel<I> = Channel(processes: PS.ProcessSet, ready: bool, wired: bool,
                                sequenceNumbers: seq<int>, instances: seq<I>)

  /** The per-rank arrays have one entry per slot of the process set. */
  predicate Valid<I>(c: Channel<I>)
  {
    |c.sequenceNumbers| == PS.Size(c.processes) && |c.instances| == PS.Size(c.processes)
  }

  /** `bccInit`: ready, nothing delivered, one fresh instance per slot, channels not yet wired. */
  function Init<I>(processes: PS.ProcessSet, initial: I): (c: Channel<I>)
    ensures Valid(c) && c.ready && !c.wired && c.processes == processes
    ensures forall r :: 0 <= r < PS.Size(processes) ==> c.sequenceNumbers[r] == 0 && c.instances[r] == initial
  {
    Channel(processes, true, false, seq(PS.Size(processes), _ => 0), seq(PS.Size(processes), _ => initial))
  }

  /**
   * `handleChannelInit`: the first ChannelInit wires one child channel per
   * instance and is passed on; later ones are swallowed. Returns the new
   * channel and whether the event was passed on.
   */
  function ChannelInit<I>(c: Channel<I>): (r: (Channel<I>, bool))
    ensures r.0.wired
    ensures r.1 <==> !c.wired
    ensures r.0.(wired := c.wired) == c
  {
    if c.wired then (c, false) else (c.(wired := true), true)
  }

  /** Wiring happens once: a second ChannelInit changes nothing and is not passed on. */
  lemma WiringOnce<I>(c: Channel<I>)
    ensures var first := ChannelInit(c).0;
      ChannelInit(first) == (first, false)
  {
  }

  /**
   * The outcome of `echoBroadcast`. `Blocked`: `ready` is false and the
   * handler spins forever, so the broadcast is never handed on. Otherwise the
   * event is handed to the instance of rank `rank` (the local rank), unless
   * indexing that rank raised.
   */
  datatype Handoff<I> = Blocked | Handoff(c: Channel<I>, rank: int, raised: bool)

  /**
   * `echoBroadcast`: when ready, clears `ready`, applies `prepare` to the
   * local instance (the tutorial variant resets it, the others leave it) and
   * hands the event to that instance's child channel.
   */
  function OpenBroadcast<I>(c: Channel<I>, prepare: I -> I): (r: Handoff<I>)
    requires Valid(c)
    ensures r.Blocked? <==> !c.ready
    ensures r.Handoff? ==>
      && Valid(r.c) && !r.c.ready && r.rank == c.processes.self
      && r.c.processes == c.processes && r.c.wired == c.wired
      && r.c.sequenceNumbers == c.sequenceNumbers
      && (r.raised <==> !(0 <= r.rank < PS.Size(c.processes)))
      && (!r.raised ==> r.c.instances == c.instances[r.rank := prepare(c.instances[r.rank])])
      && (r.raised ==> r.c.instances == c.instances)
  {
    if !c.ready then Blocked
    else
      var c1 := c.(ready := false);
      var rank := c.processes.self;
      if 0 <= rank < |c.instances| then
        Handoff(c1.(instances := c.instances[rank := prepare(c.instances[rank])]), rank, false)
      else Handoff(c1, rank, true)
  }

  /** The number of the local process, `None` when reading it raises (rank out of range or empty slot). */
  function SelfNumber(ps: PS.ProcessSet): (r: Option<int>)
    ensures r.Some? <==> 0 <= ps.self < PS.Size(ps) && ps.procs[ps.self].Some?
    ensures r.Some? ==> r.value == ps.procs[ps.self].value.number
  {
    if 0 <= ps.self < |ps.procs| && ps.procs[ps.self].Some? then Some(ps.procs[ps.self].value.number) else None
  }

  /**
   * The outcome of `pp2pdeliver` for a delivery from `source`: `rank` is the
   * sender's rank, `tag` the number of deliveries from that rank before this
   * one. When `raised`, the delivery is not passed up.
   */
  datatype Delivered<I> = Delivered(c: Channel<I>, rank: int, tag: int, raised: bool)

  /**
   * `pp2pdeliver`: counts the delivery against the sender's rank, resets the
   * sender's instance for its next broadcast and, when the sender is the
   * local process, sets `ready` again. An unknown sender raises before
   * anything changes; an unreadable local process raises after the count and
   * the reset.
   */
  function Deliver<I>(c: Channel<I>, source: Addr, reset: I -> I): (r: Delivered<I>)
    requires Valid(c)
    ensures Valid(r.c) && r.c.processes == c.processes && r.c.wired == c.wired
    ensures r.rank == PS.GetRank(c.processes, source)
    ensures r.rank < 0 ==> r.raised && r.c == c
    ensures r.rank >= 0 ==>
      && r.tag == c.sequenceNumbers[r.rank]
      && r.c.sequenceNumbers == c.sequenceNumbers[r.rank := c.sequenceNumbers[r.rank] + 1]
      && r.c.instances == c.instances[r.rank := reset(c.instances[r.rank])]
      && (r.raised <==> SelfNumber(c.processes).None?)
      && (r.c.ready <==> c.ready || SelfNumber(c.processes) == Some(r.rank))
  {
    var rank := PS.GetRank(c.processes, source);
    if rank < 0 then Delivered(c, rank, 0, true)
    else
      var c1 := c.(sequenceNumbers := c.sequenceNumbers[rank := c.sequenceNumbers[rank] + 1],
                   instances := c.instances[rank := reset(c.instances[rank])]);
      var self := SelfNumber(c.processes);
      Delivered(c1.(ready := c.ready || self == Some(rank)), rank, c.sequenceNumbers[rank], self.None?)
  }

  /**
   * The ready gate: after a broadcast is handed on, a second one is blocked;
   * a delivery from another sender keeps it blocked, and the delivery of the
   * local process's own broadcast opens the gate again.
   */
  lemma GateHoldsUntilOwnDelivery<I>(c: Channel<I>, prepare: I -> I, reset: I -> I, other: Addr, own: Addr)
    requires Valid(c) && c.ready
    requires SelfNumber(c.processes).Some? && SelfNumber(c.processes).value >= 0
    requires PS.GetRank(c.processes, own) == SelfNumber(c.processes).value
    requires PS.GetRank(c.processes, other) != SelfNumber(c.processes).value
    ensures var h := OpenBroadcast(c, prepare);
      && h.Handoff? && OpenBroadcast(h.c, prepare).Blocked?
      && var d := Deliver(h.c, other, reset);
         && OpenBroadcast(d.c, prepare).Blocked?
         && OpenBroadcast(Deliver(d.c, own, reset).c, prepare).Handoff?
  {
  }

  /** A run of deliveries from the given senders, in order. */
  function DeliverRun<I>(c: Channel<I>, sources: seq<Addr>, reset: I -> I): (r: Channel<I>)
    requires Valid(c)
    ensures Valid(r) && r.processes == c.processes
    decreases |sources|
  {
    if sources == [] then c else DeliverRun(Deliver(c, sources[0], reset).c, sources[1..], reset)
  }

  /** How many of `sources` have rank `rank`. */
  function FromRank(ps: PS.ProcessSet, sources: seq<Addr>, rank: int): (n: nat)
    ensures n <= |sources|
  {
    if sources == [] then 0
    else (if PS.GetRank(ps, sources[0]) == rank then 1 else 0) + FromRank(ps, sources[1..], rank)
  }

  /** Each counter is its start value plus the deliveries from its rank. */
  lemma {:induction false} RunCounts<I>(c: Channel<I>, sources: seq<Addr>, reset: I -> I, rank: nat)
    requires Valid(c) && rank < PS.Size(c.processes)
    ensures DeliverRun(c, sources, reset).sequenceNumbers[rank] == c.sequenceNumbers[rank] + FromRank(c.processes, sources, rank)
    decreases |sources|
  {
    if sources != [] {
      var c1 := Deliver(c, sources[0], reset).c;
      RunCounts(c1, sources[1..], reset, rank);
    }
  }

  /**
   * The label of the `i`-th delivery of a run is its sender's start value
   * plus the number of earlier deliveries from the same sender: from a fresh
   * channel, each sender's deliveries are labelled 0, 1, 2, ...
   */
  lemma RunLabel<I>(c: Channel<I>, sources: seq<Addr>, reset: I -> I, i: nat)
    requires Valid(c) && i < |sources| && PS.GetRank(c.processes, sources[i]) >= 0
    ensures var rank := PS.GetRank(c.processes, sources[i]);
      Deliver(DeliverRun(c, sources[..i], reset), sources[i], reset).tag
        == c.sequenceNumbers[rank] + FromRank(c.processes, sources[..i], rank)
  {
    RunCounts(c, sources[..i], reset, PS.GetRank(c.processes, sources[i]));
  }
}
