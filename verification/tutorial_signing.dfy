/**
 * The signature layer of the tutorial stack. Going down, a message gets the
 * local alias and then a signature over the message with that alias on top.
 * Going up, signature and alias are popped and the message is passed on only
 * if the signature verifies; the signature is pushed back for the layer above
 * when the session is configured to do so.
 */
module TutorialSigning {
  import opened Common
  import opened Wire
  import Crypto

  datatype Config = Config(myAlias: string, trusted: Crypto.TrustStore, pushSignature: bool)

  datatype Dir = Down | Up

  /** An event reaching the layer: a sendable event with its message, or any other event. */
  datatype Event = Sendable(dir: Dir, msg: Message) | NotSendable

  /** `attachSignatureAndGo`: the message with the alias and a signature over it pushed. */
  function AttachSignature(myAlias: string, m: Message): (r: Message)
    ensures |r| == |m| + 2 && r[..|m|] == m
    ensures r[|m|] == IStr(myAlias)
    ensures Crypto.Verify(myAlias, r[..|m| + 1], r[|m| + 1])
  {
    var withAlias := m + [IStr(myAlias)];
    withAlias + [ISig(Crypto.Sign(myAlias, withAlias))]
  }

  /**
   * The static `verifySignature`: for a trusted alias, push the alias, check the
   * signature over the resulting bytes, pop the alias again. The message comes
   * back unchanged.
   */
  function VerifySignature(m: Message, userAlias: string, signature: Item, trusted: Crypto.TrustStore): (r: (bool, Message))
    ensures r.1 == m
    ensures r.0 <==> userAlias in trusted && Crypto.Verify(userAlias, m + [IStr(userAlias)], signature)
  {
    if userAlias in trusted then
      var pushed := m + [IStr(userAlias)];
      var ok := Crypto.Verify(userAlias, pushed, signature);
      (ok, pushed[..|pushed| - 1])
    else (false, m)
  }

  /**
   * What the receiving side does with a message: pass it up, drop it, or
   * raise because a `popString` found no string on top.
   */
  datatype Outcome = Passed(msg: Message) | Dropped | Raised

  /**
   * `verifySignatureAndGo`: both `popString` calls sit outside the `try`, so a
   * stack without two string values on top raises. Otherwise the message is
   * passed up when the alias is trusted and the signature verifies, and dropped
   * when not. A signature string found where the alias belongs names no
   * trusted alias.
   */
  function VerifySignatureAndGo(c: Config, m: Message): (r: Outcome)
    ensures r.Raised? <==> !StringsOnTop(m, 2)
    ensures r.Passed? <==>
      && StringsOnTop(m, 2) && m[|m| - 2].IStr?
      && m[|m| - 2].s in c.trusted && Crypto.Verify(m[|m| - 2].s, m[..|m| - 1], m[|m| - 1])
    ensures r.Passed? ==> r.msg == if c.pushSignature then m[..|m| - 2] + [m[|m| - 1]] else m[..|m| - 2]
  {
    match PopStringItem(m)
    case None => Raised
    case Some((signature, m1)) =>
      match PopStringItem(m1)
      case None => Raised
      case Some((aliasItem, m2)) =>
        assert m1 == m[..|m| - 1] && m2 == m[..|m| - 2] && aliasItem == m[|m| - 2];
        if !aliasItem.IStr? then Dropped
        else
          var (ok, m3) := VerifySignature(m2, aliasItem.s, signature, c.trusted);
          assert m2 + [aliasItem] == m[..|m| - 1];
          if ok then Passed(if c.pushSignature then m3 + [signature] else m3) else Dropped
  }

  /** What `handle` does with an event: the event passed on, if any, and whether it raised. */
  datatype Handled = Handled(out: Option<Event>, raised: bool)

  /**
   * `handle`: sendable events going down are signed and going up are checked.
   * Events that are not sendable are neither modified nor passed on.
   */
  function Handle(c: Config, e: Event): (r: Handled)
    ensures e.NotSendable? ==> r == Handled(None, false)
    ensures e.Sendable? && e.dir == Down ==> r == Handled(Some(Sendable(Down, AttachSignature(c.myAlias, e.msg))), false)
    ensures e.Sendable? && e.dir == Up ==>
      && (r.out.Some? <==> VerifySignatureAndGo(c, e.msg).Passed?)
      && (r.raised <==> !StringsOnTop(e.msg, 2))
    ensures r.out.Some? ==> r.out.value.Sendable? && r.out.value.dir == e.dir
  {
    match e
    case NotSendable => Handled(None, false)
    case Sendable(Down, m) => Handled(Some(Sendable(Down, AttachSignature(c.myAlias, m))), false)
    case Sendable(Up, m) =>
      match VerifySignatureAndGo(c, m)
      case Passed(m') => Handled(Some(Sendable(Up, m')), false)
      case Dropped => Handled(None, false)
      case Raised => Handled(None, true)
  }

  /**
   * A message signed by a sender whose alias the receiver trusts comes out of
   * the receiver's layer unchanged, with the sender's signature on top when the
   * receiver pushes signatures.
   */
  lemma SignThenVerify(sender: Config, receiver: Config, m: Message)
    requires sender.myAlias in receiver.trusted
    ensures var sent := AttachSignature(sender.myAlias, m);
            VerifySignatureAndGo(receiver, sent)
              == Passed(if receiver.pushSignature then m + [sent[|sent| - 1]] else m)
  {
    var sent := AttachSignature(sender.myAlias, m);
    assert sent[..|sent| - 2] == m;
  }

  /**
   * A message passed up was signed, under the alias just below the signature,
   * over exactly the bytes below the signature: no other message can carry
   * that signature.
   */
  lemma PassedUpWasSigned(c: Config, m: Message)
    requires VerifySignatureAndGo(c, m).Passed?
    ensures m[|m| - 1] == ISig(Crypto.Sign(m[|m| - 2].s, m[..|m| - 1]))
  {
  }
}
