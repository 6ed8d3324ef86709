/**
 * What the two past-carrying causal-order sessions share: the list elements
 * that record a message, the encoding of a past list onto an outgoing
 * message and its decoding on arrival, and the test whether a message was
 * delivered already.
 */
module PastList {
  import opened Common
  import opened Stack

  /**
   * A `ListElement`: the sender's address, the sequence number there, the
   * class name of the event and the bytes of its message.
   */
  datatype Elem = Elem(source: Addr, sn: int, cls: string, body: Payload)

  /** The five fields of one entry, pushed so that the class name ends on top. */
  function PushEntry(m: Message, e: Elem): (r: Message)
  {
    Push(Push(Push(Push(Push(m, BytesItem(e.body)), IntItem(|e.body|)), IntItem(e.sn)), AddrItem(e.source)), StrItem(e.cls))
  }

  /** The entries of a past list, pushed last one first so that the first one ends on top. */
  function EncodeEntries(m: Message, past: seq<Elem>): (r: Message)
    decreases |past|
  {
    if past == [] then m else PushEntry(EncodeEntries(m, past[1..]), past[0])
  }

  /** The outgoing message: the entries, their count and the sequence number on top. */
  function Encode(m: Message, past: seq<Elem>, seqNumber: int): (r: Message)
  {
    Push(Push(EncodeEntries(m, past), IntItem(|past|)), IntItem(seqNumber))
  }

  /**
   * One entry popped: class name, source, sequence number, size and bytes.
   * `None` when an item is missing or of another kind (the Java pop or cast
   * raises).
   */
  function PopEntry(m: Message): (r: Option<(Elem, Message)>)
  {
    match Pop(m)
    case Some((StrItem(cls), m1)) =>
      (match Pop(m1)
       case Some((AddrItem(src), m2)) =>
         (match PopInt(m2)
          case Some((sq, m3)) =>
            (match PopInt(m3)
             case Some((_, m4)) =>
               (match Pop(m4)
                case Some((BytesItem(b), m5)) => Some((Elem(src, sq, cls, b), m5))
                case _ => None)
             case None => None)
          case None => None)
       case _ => None)
    case _ => None
  }

  /**
   * The entries decoded in arrival order: those that decode, up to `n` of
   * them, the message left below them, and whether all `n` decoded. A
   * negative count decodes nothing.
   */
  datatype Decoded = Decoded(entries: seq<Elem>, rest: Message, ok: bool)

  function DecodeEntries(m: Message, n: int): (r: Decoded)
    ensures |r.entries| <= if n < 0 then 0 else n
    ensures r.ok ==> |r.entries| == (if n < 0 then 0 else n)
    decreases n
  {
    if n <= 0 then Decoded([], m, true)
    else
      match PopEntry(m)
      case None => Decoded([], m, false)
      case Some((e, m1)) =>
        var d := DecodeEntries(m1, n - 1);
        Decoded([e] + d.entries, d.rest, d.ok)
  }

  lemma PopEntryPush(m: Message, e: Elem)
    ensures PopEntry(PushEntry(m, e)) == Some((e, m))
  {
    var m1 := Push(Push(Push(Push(m, BytesItem(e.body)), IntItem(|e.body|)), IntItem(e.sn)), AddrItem(e.source));
    PopPush(m1, StrItem(e.cls));
    var m2 := Push(Push(Push(m, BytesItem(e.body)), IntItem(|e.body|)), IntItem(e.sn));
    PopPush(m2, AddrItem(e.source));
    PopIntPush(Push(Push(m, BytesItem(e.body)), IntItem(|e.body|)), e.sn);
    PopIntPush(Push(m, BytesItem(e.body)), |e.body|);
    PopPush(m, BytesItem(e.body));
  }

  /** Decoding a count of entries from a message whose top entry decodes: that entry, then the rest decoded. */
  lemma DecodeStep(top: Message, below: Message, m: Message, past: seq<Elem>)
    requires past != [] && PopEntry(top) == Some((past[0], below))
    requires DecodeEntries(below, |past| - 1) == Decoded(past[1..], m, true)
    ensures DecodeEntries(top, |past|) == Decoded(past, m, true)
  {
    assert [past[0]] + past[1..] == past;
  }

  /** Decoding the entries of an encoded past list gives back the list, in the sender's order, and the message below. */
  lemma {:induction false} EntriesRoundTrip(m: Message, past: seq<Elem>)
    ensures DecodeEntries(EncodeEntries(m, past), |past|) == Decoded(past, m, true)
    decreases |past|
  {
    if past != [] {
      var below := EncodeEntries(m, past[1..]);
      var top := EncodeEntries(m, past);
      assert top == PushEntry(below, past[0]);
      EntriesRoundTrip(m, past[1..]);
      PopEntryPush(below, past[0]);
      DecodeStep(top, below, m, past);
    }
  }

  /**
   * The whole header round trip: the receiver pops the sequence number, the
   * count, then every entry, and is left with the sender's message.
   */
  lemma EncodeRoundTrip(m: Message, past: seq<Elem>, seqNumber: int)
    ensures PopInt(Encode(m, past, seqNumber)) == Some((seqNumber, Push(EncodeEntries(m, past), IntItem(|past|))))
    ensures PopInt(Push(EncodeEntries(m, past), IntItem(|past|))) == Some((|past|, EncodeEntries(m, past)))
    ensures DecodeEntries(EncodeEntries(m, past), |past|) == Decoded(past, m, true)
  {
    PopIntPush(Push(EncodeEntries(m, past), IntItem(|past|)), seqNumber);
    PopIntPush(EncodeEntries(m, past), |past|);
    EntriesRoundTrip(m, past);
  }

  /** `isDelivered`: the scan of the delivered list for an element of that source and sequence number. */
  function IsDelivered(delivered: seq<Elem>, source: Addr, sn: int): (r: bool)
    ensures r <==> exists k :: 0 <= k < |delivered| && delivered[k].source == source && delivered[k].sn == sn
    decreases |delivered|
  {
    if delivered == [] then false
    else
      if delivered[0].source == source && delivered[0].sn == sn then true
      else
        var r := IsDelivered(delivered[1..], source, sn);
        assert r ==> exists k :: 0 <= k < |delivered| && delivered[k].source == source && delivered[k].sn == sn by {
          if r {
            var k :| 0 <= k < |delivered| - 1 && delivered[1..][k].source == source && delivered[1..][k].sn == sn;
            assert delivered[k + 1] == delivered[1..][k];
          }
        }
        r
  }

  /** A list with one more element holds a pair when the list did or the element has it. */
  lemma IsDeliveredAppend(l: seq<Elem>, e: Elem, source: Addr, sn: int)
    ensures IsDelivered(l + [e], source, sn) <==> IsDelivered(l, source, sn) || (e.source == source && e.sn == sn)
  {
    if IsDelivered(l, source, sn) {
      var k :| 0 <= k < |l| && l[k].source == source && l[k].sn == sn;
      assert (l + [e])[k] == l[k];
    }
    assert (l + [e])[|l|] == e;
  }

  /** A longer list holds every pair its prefix holds. */
  lemma IsDeliveredPrefix(l: seq<Elem>, n: nat, source: Addr, sn: int)
    requires n <= |l| && IsDelivered(l[..n], source, sn)
    ensures IsDelivered(l, source, sn)
  {
    var k :| 0 <= k < n && l[..n][k].source == source && l[..n][k].sn == sn;
    assert l[k] == l[..n][k];
  }

  /** The (source, sequence number) pairs of a list are pairwise different. */
  predicate KeysDistinct(l: seq<Elem>)
  {
    forall i, j :: 0 <= i < j < |l| ==> (l[i].source, l[i].sn) != (l[j].source, l[j].sn)
  }

  /** Appending an element whose pair is new keeps the pairs different. */
  lemma AppendFresh(l: seq<Elem>, e: Elem)
    requires KeysDistinct(l) && !IsDelivered(l, e.source, e.sn)
    ensures KeysDistinct(l + [e])
  {
  }
}
