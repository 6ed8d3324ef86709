/**
 * The record view synchrony keeps of a message: sender, identifier, the
 * event's class name and its bytes. Two records are equal when their
 * senders' addresses and their identifiers are; the class name and the bytes
 * play no part, and neither does anything else about the sender.
 */
module ViewSyncMsg {
  import opened Common
  import PS = ProcessSet
  import opened Stack

  /** `src` is `None` for a `null` sender; `data` is the serialised message, kept here as the message itself. */
  datatype Msg = Msg(src: Option<PS.Process>, id: int, eventName: string, data: Message)

  /** What identifies a record: sender address and identifier. */
  datatype Key = Key(addr: Addr, id: int)

  /**
   * `equals(obj)`; `other` is `None` for an object of another class.
   * `None` as the result: a `null` sender on either side raises.
   */
  function Equals(m: Msg, other: Option<Msg>): (r: Option<bool>)
    ensures other.None? ==> r == Some(false)
    ensures other.Some? ==> (r.None? <==> m.src.None? || other.value.src.None?)
    ensures r == Some(true) <==>
      other.Some? && m.src.Some? && other.value.src.Some? && KeyOf(m) == KeyOf(other.value)
  {
    match other
    case None => Some(false)
    case Some(o) =>
      if m.src.None? || o.src.None? then None
      else Some(m.src.value.addr == o.src.value.addr && m.id == o.id)
  }

  function KeyOf(m: Msg): Key
    requires m.src.Some?
  {
    Key(m.src.value.addr, m.id)
  }

  /** `hashCode()`: the address's hash plus the identifier, in Java `int` arithmetic; `None` for a `null` sender. */
  function HashCode(m: Msg, addrHash: Addr -> int): (r: Option<int>)
    ensures r.Some? <==> m.src.Some?
    ensures r.Some? ==> IsInt32(r.value) && (r.value - addrHash(m.src.value.addr) - m.id) % TWO_32 == 0
  {
    if m.src.None? then None else Some(Wrap32(addrHash(m.src.value.addr) + m.id))
  }

  /** Equality is reflexive and symmetric on records with senders, and equal records hash alike. */
  lemma EqualsIsEquivalence(a: Msg, b: Msg, addrHash: Addr -> int)
    requires a.src.Some? && b.src.Some?
    ensures Equals(a, Some(a)) == Some(true)
    ensures Equals(a, Some(b)) == Equals(b, Some(a))
    ensures Equals(a, Some(b)) == Some(true) ==> HashCode(a, addrHash) == HashCode(b, addrHash)
  {
  }

  /** The bytes and the class name do not matter: records with one key are equal whatever they carry. */
  lemma PayloadIgnored(a: Msg, name: string, data: Message)
    requires a.src.Some?
    ensures Equals(a, Some(a.(eventName := name, data := data))) == Some(true)
  {
  }
}
