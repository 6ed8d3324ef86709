/**
 * The tutorial's Byzantine consistent channel over the tutorial echo
 * broadcast instances. Before handing a broadcast to the local instance it
 * resets that instance, and every delivery it passes up has its text
 * extended with " label:" and the number of earlier deliveries from the same
 * sender.
 */
module TutorialChannel {
  import opened Common
  import opened EchoEvent
  import EB = EchoBroadcast
  import PS = ProcessSet
  import Crypto
  import CC = ConsistentChannel

  type Channel = CC.Channel<EB.State>

  /** `init(set, ...)` followed by `bccInit`: every instance initialised over the same process set. */
  function Init(processes: PS.ProcessSet, trusted: Crypto.TrustStore): (c: Channel)
    ensures CC.Valid(c) && c.ready && !c.wired && c.processes == processes
    ensures forall r :: 0 <= r < PS.Size(processes) ==>
      c.sequenceNumbers[r] == 0 && c.instances[r] == EB.Init(processes, trusted) && EB.Valid(c.instances[r])
  {
    CC.Init(processes, EB.Init(processes, trusted))
  }

  /** `echoBroadcast`: the gate, then the local instance is reset and given the event. */
  function Broadcast(c: Channel): (r: CC.Handoff<EB.State>)
    requires CC.Valid(c)
    ensures r.Blocked? <==> !c.ready
    ensures r.Handoff? ==> CC.Valid(r.c) && r.c.processes == c.processes && !r.c.ready
    ensures r.Handoff? && !r.raised ==>
      && 0 <= r.rank < |c.instances|
      && r.c.instances[r.rank] == EB.Reset(c.instances[r.rank])
      && forall k :: 0 <= k < |c.instances| && k != r.rank ==> r.c.instances[k] == c.instances[k]
  {
    CC.OpenBroadcast(c, EB.Reset)
  }

  /** The text handed up: Java's string concatenation, which writes a null text as "null". */
  function LabelText(text: Option<string>, k: int): (t: string)
    ensures text.Some? ==> |t| > |text.value| && t[..|text.value|] == text.value
  {
    (if text.Some? then text.value else "null") + " label:" + IntToString(k)
  }

  /** Two deliveries of the same text from one sender are told apart by their labels. */
  lemma LabelsDistinguish(text: Option<string>, k1: int, k2: int)
    requires k1 != k2
    ensures LabelText(text, k1) != LabelText(text, k2)
  {
    var p := (if text.Some? then text.value else "null") + " label:";
    if LabelText(text, k1) == LabelText(text, k2) {
      assert LabelText(text, k1)[|p|..] == IntToString(k1);
      assert LabelText(text, k2)[|p|..] == IntToString(k2);
      IntToStringInjective(k1, k2);
    }
  }

  /** `pp2pdeliver`: counts and resets as the channel does, and labels the event passed up. */
  function Deliver(c: Channel, source: Addr, ev: EchoEvent): (r: (CC.Delivered<EB.State>, Option<EchoEvent>))
    requires CC.Valid(c)
    ensures r.0 == CC.Deliver(c, source, EB.Reset)
    ensures r.1.Some? <==> !r.0.raised
    ensures r.1.Some? ==> r.1.value == ev.(text := Some(LabelText(ev.text, r.0.tag)))
  {
    var d := CC.Deliver(c, source, EB.Reset);
    if d.raised then (d, None) else (d, Some(ev.(text := Some(LabelText(ev.text, d.tag)))))
  }

  /**
   * From a fresh channel, the delivery at position `i` of a run is labelled
   * with the number of earlier deliveries from the same sender.
   */
  lemma LabelsCountPerSender(processes: PS.ProcessSet, trusted: Crypto.TrustStore, sources: seq<Addr>, i: nat, ev: EchoEvent)
    requires i < |sources| && PS.GetRank(processes, sources[i]) >= 0
    requires CC.SelfNumber(processes).Some?
    ensures var before := CC.DeliverRun(Init(processes, trusted), sources[..i], EB.Reset);
      Deliver(before, sources[i], ev).1
        == Some(ev.(text := Some(LabelText(ev.text, CC.FromRank(processes, sources[..i], PS.GetRank(processes, sources[i]))))))
  {
    CC.RunLabel(Init(processes, trusted), sources, EB.Reset, i);
  }
}
