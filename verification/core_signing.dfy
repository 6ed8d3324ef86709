/**
 * The signature layer of the `src/core` stack. Going down it signs like the
 * tutorial layer. Going up it checks the signature and, when it verifies,
 * passes the message up with alias and signature still on top, for the echo
 * broadcast layer to collect.
 */
module CoreSigning {
  import opened Common
  import opened Wire
  import Crypto
  import TutorialSigning

  datatype Config = Config(myAlias: string, trusted: Crypto.TrustStore)

  /**
   * Handling an incoming message: pop signature and alias, push the alias back,
   * and pass the message up with the signature pushed again when the alias is
   * trusted and the signature verifies; otherwise drop it. Both pops sit
   * outside the `try`, so a stack without two string values on top raises.
   */
  function Receive(c: Config, m: Message): (r: TutorialSigning.Outcome)
    ensures r.Raised? <==> !StringsOnTop(m, 2)
    ensures r.Passed? <==>
      && StringsOnTop(m, 2) && m[|m| - 2].IStr?
      && m[|m| - 2].s in c.trusted && Crypto.Verify(m[|m| - 2].s, m[..|m| - 1], m[|m| - 1])
    ensures r.Passed? ==> r.msg == m
  {
    match PopStringItem(m)
    case None => TutorialSigning.Raised
    case Some((signature, m1)) =>
      match PopStringItem(m1)
      case None => TutorialSigning.Raised
      case Some((aliasItem, m2)) =>
        assert m1 == m[..|m| - 1] && m2 == m[..|m| - 2] && aliasItem == m[|m| - 2];
        var repushed := m2 + [aliasItem];
        assert repushed == m1;
        if aliasItem.IStr? && aliasItem.s in c.trusted && Crypto.Verify(aliasItem.s, repushed, signature) then
          TutorialSigning.Passed(repushed + [signature])
        else TutorialSigning.Dropped
  }

  /** Going down: the same signing as the tutorial layer. */
  function Send(c: Config, m: Message): (r: Message)
    ensures |r| == |m| + 2 && r[..|m|] == m && r[|m|] == IStr(c.myAlias)
    ensures Crypto.Verify(c.myAlias, r[..|m| + 1], r[|m| + 1])
  {
    TutorialSigning.AttachSignature(c.myAlias, m)
  }

  /** A signed message from a trusted sender passes up exactly as it was sent. */
  lemma SendThenReceive(sender: Config, receiver: Config, m: Message)
    requires sender.myAlias in receiver.trusted
    ensures Receive(receiver, Send(sender, m)) == TutorialSigning.Passed(Send(sender, m))
  {
  }

  /**
   * `handle`: sendable events going down are signed, going up are checked, and
   * events that are not sendable are neither modified nor passed on.
   */
  function Handle(c: Config, e: TutorialSigning.Event): (r: TutorialSigning.Handled)
    ensures e.NotSendable? ==> r == TutorialSigning.Handled(None, false)
    ensures e.Sendable? && e.dir == TutorialSigning.Down ==>
      r == TutorialSigning.Handled(Some(TutorialSigning.Sendable(TutorialSigning.Down, Send(c, e.msg))), false)
    ensures e.Sendable? && e.dir == TutorialSigning.Up ==>
      && (r.out.Some? <==> Receive(c, e.msg).Passed?)
      && (r.out.Some? ==> r.out.value == e)
      && (r.raised <==> !StringsOnTop(e.msg, 2))
    ensures r.out.Some? ==> r.out.value.Sendable? && r.out.value.dir == e.dir
  {
    match e
    case NotSendable => TutorialSigning.Handled(None, false)
    case Sendable(Down, m) => TutorialSigning.Handled(Some(TutorialSigning.Sendable(TutorialSigning.Down, Send(c, m))), false)
    case Sendable(Up, m) =>
      match Receive(c, m)
      case Passed(m') => TutorialSigning.Handled(Some(TutorialSigning.Sendable(TutorialSigning.Up, m')), false)
      case Dropped => TutorialSigning.Handled(None, false)
      case Raised => TutorialSigning.Handled(None, true)
  }
}
