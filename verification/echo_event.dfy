/**
 * The event of the echo broadcast protocol: two flags telling SEND, ECHO and
 * FINAL apart, a sequence number, a text, and the message whose header stack
 * carries them on the wire.
 */
module EchoEvent {
  import opened Common
  import opened Wire

  /**
   * `text` is `None` for a Java `null` text. A SEND has both flags false, an
   * ECHO has `isEcho`, a FINAL has `isFinal`.
   */
  datatype EchoEvent = EchoEvent(isEcho: bool, isFinal: bool, seqNo: int, text: Option<string>, msg: Message)

  /** A freshly constructed event: no flags, sequence number 0, null text, empty message. */
  function Fresh(): (e: EchoEvent)
    ensures !e.isEcho && !e.isFinal && e.seqNo == 0 && e.text.None? && e.msg == []
  {
    EchoEvent(false, false, 0, None, [])
  }

  /** The four header values in push order. */
  function Header(seqNo: int, isEcho: bool, isFinal: bool, text: string): seq<Item>
  {
    [IInt(seqNo), IBool(isEcho), IBool(isFinal), IStr(text)]
  }

  /**
   * `pushValuesToMessage`: pushes the sequence number, the echo flag, the final
   * flag and the text. Pushing a null text raises (`None`).
   */
  function PushValues(e: EchoEvent): (r: Option<EchoEvent>)
    ensures r.Some? <==> e.text.Some?
    ensures r.Some? ==> |r.value.msg| == |e.msg| + 4 && r.value.msg[..|e.msg|] == e.msg
    ensures r.Some? ==> PopValues(r.value) == Some(e)
  {
    match e.text
    case None => None
    case Some(t) =>
      var pushed := e.(msg := e.msg + Header(e.seqNo, e.isEcho, e.isFinal, t));
      assert pushed.msg[..|pushed.msg| - 1][..|e.msg| + 2] == e.msg + [IInt(e.seqNo), IBool(e.isEcho)];
      assert pushed.msg[..|pushed.msg| - 1][..|e.msg| + 2][..|e.msg| + 1] == e.msg + [IInt(e.seqNo)];
      Some(pushed)
  }

  /**
   * `popValuesFromMessage`: pops text, final flag, echo flag and sequence
   * number, overwriting the event's fields. A stack whose top four values are
   * not of those kinds raises (`None`).
   */
  function PopValues(e: EchoEvent): (r: Option<EchoEvent>)
    ensures r.Some? ==> |r.value.msg| + 4 == |e.msg| && r.value.msg == e.msg[..|e.msg| - 4]
    ensures r.Some? ==> r.value.text.Some?
    ensures r.Some? ==> e.msg == r.value.msg + Header(r.value.seqNo, r.value.isEcho, r.value.isFinal, r.value.text.value)
  {
    match PopStr(e.msg)
    case None => None
    case Some((t, m1)) =>
      match PopBool(m1)
      case None => None
      case Some((fin, m2)) =>
        match PopBool(m2)
        case None => None
        case Some((echo, m3)) =>
          match PopInt(m3)
          case None => None
          case Some((sn, m4)) =>
            Some(EchoEvent(echo, fin, sn, Some(t), m4))
  }

  /** Popping then pushing gives back the same message. */
  lemma PopThenPush(e: EchoEvent)
    requires PopValues(e).Some?
    ensures PushValues(PopValues(e).value) == Some(e.(isEcho := PopValues(e).value.isEcho,
                                                       isFinal := PopValues(e).value.isFinal,
                                                       seqNo := PopValues(e).value.seqNo,
                                                       text := PopValues(e).value.text))
  {
  }
}
