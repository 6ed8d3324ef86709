/**
 * The tutorial's channel over faulty echo broadcast instances. Its handlers
 * are those of the library channel (no reset before a broadcast, no label on
 * deliveries); its instances are the faulty tutorial instances, whose state
 * is the tutorial echo broadcast state and whose `reset` is inherited.
 */
module ByzantineChannel {
  import opened Common
  import opened EchoEvent
  import EB = EchoBroadcast
  import PS = ProcessSet
  import Crypto
  import CC = ConsistentChannel
  import TC = TutorialChannel

  type Channel = CC.Channel<EB.State>

  /**
   * `init(set, rank, alias, usercerts, testCase)` followed by `bccInit`,
   * which initialises every instance with `init(processes, rank, usercerts,
   * "123456")`: the channel's own `testCase` is not handed to the instances,
   * so the channel starts exactly as the tutorial channel does.
   */
  function Init(processes: PS.ProcessSet, trusted: Crypto.TrustStore, testCase: string): (c: Channel)
    ensures CC.Valid(c) && c.ready && !c.wired && c.processes == processes
    ensures forall r :: 0 <= r < PS.Size(processes) ==> c.instances[r] == EB.Init(processes, trusted)
    ensures c == TC.Init(processes, trusted)
  {
    CC.Init(processes, EB.Init(processes, trusted))
  }

  function Keep(s: EB.State): EB.State { s }

  /**
   * `echoBroadcast`: the gate of the tutorial channel without its reset: the
   * channel only closes `ready`, and the tutorial channel's outcome is this
   * one with the local instance reset.
   */
  function Broadcast(c: Channel): (r: CC.Handoff<EB.State>)
    requires CC.Valid(c)
    ensures r.Blocked? <==> !c.ready
    ensures r.Handoff? ==> r.c == c.(ready := false) && r.rank == c.processes.self
    ensures r.Handoff? && !r.raised ==>
      && 0 <= r.rank < |r.c.instances|
      && TC.Broadcast(c) == CC.Handoff(r.c.(instances := r.c.instances[r.rank := EB.Reset(r.c.instances[r.rank])]), r.rank, false)
    ensures r.Handoff? && r.raised ==> TC.Broadcast(c) == r
  {
    CC.OpenBroadcast(c, Keep)
  }

  /**
   * `pp2pdeliver`: counts and resets exactly as the tutorial channel does,
   * but passes the event up without the tutorial's label.
   */
  function Deliver(c: Channel, source: Addr, ev: EchoEvent): (r: (CC.Delivered<EB.State>, Option<EchoEvent>))
    requires CC.Valid(c)
    ensures r.0 == TC.Deliver(c, source, ev).0
    ensures r.1.Some? <==> TC.Deliver(c, source, ev).1.Some?
    ensures r.1.Some? ==>
      && r.1.value == ev
      && TC.Deliver(c, source, ev).1.value == ev.(text := Some(TC.LabelText(ev.text, r.0.tag)))
  {
    var d := CC.Deliver(c, source, EB.Reset);
    if d.raised then (d, None) else (d, Some(ev))
  }

  /**
   * Along a run of deliveries, the instance of a rank that is either `x0` or
   * `x0` reset ends reset as soon as one delivery comes from that rank, and
   * is left alone otherwise.
   */
  lemma {:induction false} RunResets(c: Channel, sources: seq<Addr>, rank: nat, x0: EB.State)
    requires CC.Valid(c) && rank < PS.Size(c.processes)
    requires c.instances[rank] == x0 || c.instances[rank] == EB.Reset(x0)
    ensures CC.DeliverRun(c, sources, EB.Reset).instances[rank]
      == (if CC.FromRank(c.processes, sources, rank) > 0 then EB.Reset(x0) else c.instances[rank])
    decreases |sources|
  {
    if sources != [] {
      var c1 := CC.Deliver(c, sources[0], EB.Reset).c;
      assert EB.Reset(EB.Reset(x0)) == EB.Reset(x0);
      RunResets(c1, sources[1..], rank, x0);
    }
  }

  /**
   * From a fresh channel, after any run of deliveries, the instance of each
   * rank is the fresh instance when nothing came from that rank and the
   * fresh instance reset otherwise: deliveries never disturb the instances
   * of other senders.
   */
  lemma FreshRunResetsSenders(processes: PS.ProcessSet, trusted: Crypto.TrustStore, testCase: string, sources: seq<Addr>, rank: nat)
    requires rank < PS.Size(processes)
    ensures var x0 := EB.Init(processes, trusted);
      CC.DeliverRun(Init(processes, trusted, testCase), sources, EB.Reset).instances[rank]
        == (if CC.FromRank(processes, sources, rank) > 0 then EB.Reset(x0) else x0)
  {
    RunResets(Init(processes, trusted, testCase), sources, rank, EB.Init(processes, trusted));
  }
}
