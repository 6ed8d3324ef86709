/**
 * A late ECHO of a finished round. `reset` clears `sentFinal` but keeps the
 * ECHOs collected for earlier rounds, and `collectEchoReply` does not look at
 * whether an ECHO belongs to the round in progress. A late ECHO for a round
 * that already has a quorum therefore sends a second FINAL for that round,
 * carrying the late ECHO's text, and sets `sentFinal`, so the FINAL of the
 * round in progress is never sent.
 */
module EchoBroadcastStaleRound {
  import opened Common
  import opened Wire
  import opened EchoEvent
  import opened EchoBroadcast
  import PS = ProcessSet

  /**
   * `collectEchoReply` as intended: an ECHO of a round other than the one in
   * progress changes nothing, and the FINAL carries the text that has the
   * quorum.
   */
  function CollectEchoReplyCurrentRound(s: State, source: Addr, ev: EchoEvent, sig: Item): (r: Step)
    requires Valid(s) && ev.text.Some? && IsString(sig)
    ensures Valid(r.s)
    ensures ev.seqNo != s.sequenceNumber ==> r == Step(s, [], false)
    ensures s.sentFinal ==> r.out == []
    ensures r.out != [] ==>
      && ev.seqNo == s.sequenceNumber && r.s.sentFinal && |r.out| == 1
      && ev.seqNo in r.s.replyQueue
      && exists t :: Count(r.s.replyQueue[ev.seqNo], t) > Threshold(s)
                     && r.out[0] == Send(Multicast(PS.GetAllSockets(s.processes)),
                                         FinalBody(ev.seqNo, t, CertificateSlots(r.s.sigmas)))
    ensures ev.seqNo == s.sequenceNumber && ev.seqNo in s.replyQueue && PS.GetRank(s.processes, source) >= 0
            && !s.sentFinal && HasQuorum(s.replyQueue[ev.seqNo] + [ev.text.value], Threshold(s))
            ==> r.out != []
  {
    if ev.seqNo != s.sequenceNumber then Step(s, [], false)
    else
      var rec := RecordEcho(s, source, ev, sig);
      if rec.finalDue then
        var bucket := rec.s.replyQueue[ev.seqNo];
        FindQuorumComplete(bucket, Threshold(s));
        var t := FindQuorum(bucket, Threshold(s), 0).value;
        SendFinal(rec.s, ev.(text := Some(t)))
      else Step(rec.s, [], rec.raised)
  }

  /** An ECHO of round `seqNo` as it arrives after unpacking. */
  function EchoOf(seqNo: int, text: string): (e: EchoEvent)
    ensures e.isEcho && !e.isFinal && e.text == Some(text)
  {
    EchoEvent(true, false, seqNo, Some(text), [])
  }

  /** Appending an ECHO never destroys a quorum already present. */
  lemma QuorumSurvivesAppend(bucket: seq<string>, t: int, text: string)
    requires HasQuorum(bucket, t)
    ensures HasQuorum(bucket + [text], t)
  {
    var x :| x in bucket && Count(bucket, x) > t;
    CountAppend(bucket, text, x);
  }

  /**
   * A round that reached its quorum keeps its ECHOs across `reset` and the
   * next `echoBroadcast`, while `sentFinal` is cleared.
   */
  lemma FinishedRoundSurvivesReset(s: State, ev: EchoEvent)
    requires Valid(s) && ev.text.Some?
    requires s.sequenceNumber in s.replyQueue
    ensures var next := Broadcast(Reset(s), ev).s;
      && Valid(next) && !next.sentFinal && next.processes == s.processes
      && next.sequenceNumber == s.sequenceNumber + 1
      && s.sequenceNumber in next.replyQueue
      && next.replyQueue[s.sequenceNumber] == s.replyQueue[s.sequenceNumber]
  {
  }

  /**
   * As written: with round `k` finished (its bucket holds a quorum) and a
   * later round in progress, a late ECHO of round `k` from a member sends a
   * FINAL for round `k` carrying the late text, even when that text was echoed
   * only once, and sets `sentFinal`; from then on no ECHO, of any round, sends
   * a FINAL.
   */
  lemma LateEchoBlocksCurrentRound(s: State, k: int, source: Addr, text: string, sig: Item)
    requires Valid(s) && IsString(sig) && PS.Size(s.processes) > 0
    requires !s.sentFinal && k != s.sequenceNumber && k in s.replyQueue
    requires HasQuorum(s.replyQueue[k], Threshold(s))
    requires PS.GetRank(s.processes, source) >= 0
    requires text !in s.replyQueue[k]
    ensures var late := CollectEchoReply(s, source, EchoOf(k, text), sig);
      && late.s.sentFinal
      && late.out == [Send(Multicast(PS.GetAllSockets(s.processes)), FinalBody(k, text, CertificateSlots(late.s.sigmas)))]
      && Count(late.s.replyQueue[k], text) == 1 <= Threshold(s)
      && forall src: Addr, ev: EchoEvent, sig2: Item | ev.text.Some? && IsString(sig2) ::
           CollectEchoReply(late.s, src, ev, sig2).out == []
  {
    var bucket := s.replyQueue[k];
    QuorumSurvivesAppend(bucket, Threshold(s), text);
    CountAppend(bucket, text, text);
  }

  /**
   * As intended: in the same situation the late ECHO changes nothing, and an
   * ECHO of the round in progress that completes its quorum sends that
   * round's FINAL.
   */
  lemma LateEchoIgnoredWhenCurrentRoundOnly(s: State, k: int, source: Addr, text: string, sig: Item,
                                            source2: Addr, ev2: EchoEvent, sig2: Item)
    requires Valid(s) && IsString(sig) && IsString(sig2) && ev2.text.Some?
    requires !s.sentFinal && k != s.sequenceNumber && k in s.replyQueue
    requires PS.GetRank(s.processes, source2) >= 0
    requires ev2.seqNo == s.sequenceNumber && s.sequenceNumber in s.replyQueue
    requires HasQuorum(s.replyQueue[s.sequenceNumber] + [ev2.text.value], Threshold(s))
    ensures var late := CollectEchoReplyCurrentRound(s, source, EchoOf(k, text), sig);
      && late == Step(s, [], false)
      && CollectEchoReplyCurrentRound(late.s, source2, ev2, sig2).out != []
  {
  }
}
