/**
 * The Byzantine consistent channel of the library, over the library's echo
 * broadcast instances. Unlike the tutorial channel it does not reset the
 * local instance before a broadcast and passes deliveries up unchanged.
 */
module CoreChannel {
  import opened Common
  import opened EchoEvent
  import CE = CoreEcho
  import PS = ProcessSet
  import Crypto
  import CC = ConsistentChannel

  type Channel = CC.Channel<CE.State>

  /** `init(processfile, rank, alias, usercerts)` followed by `bccInit`. */
  function Init(processes: PS.ProcessSet, trusted: Crypto.TrustStore): (c: Channel)
    ensures CC.Valid(c) && c.ready && !c.wired && c.processes == processes
    ensures forall r :: 0 <= r < PS.Size(processes) ==>
      c.sequenceNumbers[r] == 0 && c.instances[r] == CE.Init(processes, trusted) && CE.Valid(c.instances[r])
  {
    CC.Init(processes, CE.Init(processes, trusted))
  }

  function Keep(s: CE.State): CE.State { s }

  /** `echoBroadcast`: the gate; every instance is left as it is. */
  function Broadcast(c: Channel): (r: CC.Handoff<CE.State>)
    requires CC.Valid(c)
    ensures r.Blocked? <==> !c.ready
    ensures r.Handoff? ==> r.c.instances == c.instances && r.c.sequenceNumbers == c.sequenceNumbers
  {
    CC.OpenBroadcast(c, Keep)
  }

  /** `pp2pdeliver`: counts, resets the sender's instance, and passes the event up unchanged. */
  function Deliver(c: Channel, source: Addr, ev: EchoEvent): (r: (CC.Delivered<CE.State>, Option<EchoEvent>))
    requires CC.Valid(c)
    ensures r.0 == CC.Deliver(c, source, CE.Reset)
    ensures r.1.Some? <==> !r.0.raised
    ensures r.1.Some? ==> r.1.value == ev
  {
    var d := CC.Deliver(c, source, CE.Reset);
    if d.raised then (d, None) else (d, Some(ev))
  }

  /**
   * The sender's instance is ready for that sender's next broadcast after a
   * delivery: its flags and slots are cleared while the record of echoed
   * SENDs survives, and no other instance changes.
   */
  lemma DeliverResetsSenderOnly(c: Channel, source: Addr, ev: EchoEvent)
    requires CC.Valid(c) && PS.GetRank(c.processes, source) >= 0
    ensures var d := Deliver(c, source, ev).0;
      var k := d.rank;
      && !d.c.instances[k].sentEcho && !d.c.instances[k].sentFinal && !d.c.instances[k].delivered
      && (forall j :: CE.AlreadyReplied(d.c.instances[k], j) <==> CE.AlreadyReplied(c.instances[k], j))
      && forall j :: 0 <= j < |c.instances| && j != k ==> d.c.instances[j] == c.instances[j]
  {
  }
}
