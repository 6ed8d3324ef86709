/**
 * The header stack of a message on the authenticated stack (echo broadcast,
 * consistent channel, signature layer). Appia pushes header values on top of
 * the message; here a message is the sequence of pushed values, the last
 * element being the top of the stack. The bytes a signature covers
 * (`toByteArray`) are the message itself.
 */
module Wire {
  import opened Common

  datatype Item =
    | IInt(i: int)
    | IBool(b: bool)
    | IStr(s: string)
    | ISig(sig: Signature)

  /**
   * A signature as an ideal value: the alias whose private key made it and the
   * bytes it covers. On the wire it is a base64 string; a signature can only be
   * made by calling `Crypto.Sign` with the signer's alias.
   */
  datatype Signature = Signature(signer: string, bytes: seq<Item>)

  type Message = seq<Item>

  /** What `popString` may return: a plain string or a base64 signature. */
  predicate IsString(x: Item)
  {
    x.IStr? || x.ISig?
  }

  function PopInt(m: Message): (r: Option<(int, Message)>)
    ensures r.Some? <==> |m| > 0 && m[|m| - 1].IInt?
    ensures r.Some? ==> r.value.1 + [IInt(r.value.0)] == m
  {
    if |m| > 0 && m[|m| - 1].IInt? then Some((m[|m| - 1].i, m[..|m| - 1])) else None
  }

  function PopBool(m: Message): (r: Option<(bool, Message)>)
    ensures r.Some? <==> |m| > 0 && m[|m| - 1].IBool?
    ensures r.Some? ==> r.value.1 + [IBool(r.value.0)] == m
  {
    if |m| > 0 && m[|m| - 1].IBool? then Some((m[|m| - 1].b, m[..|m| - 1])) else None
  }

  /** Pops a plain string (an alias, a text, the BOTTOM marker). */
  function PopStr(m: Message): (r: Option<(string, Message)>)
    ensures r.Some? <==> |m| > 0 && m[|m| - 1].IStr?
    ensures r.Some? ==> r.value.1 + [IStr(r.value.0)] == m
  {
    if |m| > 0 && m[|m| - 1].IStr? then Some((m[|m| - 1].s, m[..|m| - 1])) else None
  }

  /** Pops any string-valued item, keeping it as an item (a signature slot). */
  function PopStringItem(m: Message): (r: Option<(Item, Message)>)
    ensures r.Some? <==> |m| > 0 && IsString(m[|m| - 1])
    ensures r.Some? ==> IsString(r.value.0) && r.value.1 + [r.value.0] == m
  {
    if |m| > 0 && IsString(m[|m| - 1]) then Some((m[|m| - 1], m[..|m| - 1])) else None
  }

  /**
   * How many of `n` successive `popString` calls succeed on `m`: the string
   * values on top, stopping at the first value that is missing or not a string.
   */
  function StringRun(m: Message, n: nat): (k: nat)
    ensures k <= n && k <= |m|
    ensures forall j :: |m| - k <= j < |m| ==> IsString(m[j])
    ensures k < n ==> k == |m| || !IsString(m[|m| - 1 - k])
  {
    if n == 0 || |m| == 0 || !IsString(m[|m| - 1]) then 0
    else
      var k' := StringRun(m[..|m| - 1], n - 1);
      assert forall j :: |m| - 1 - k' <= j < |m| - 1 ==> m[..|m| - 1][j] == m[j];
      1 + k'
  }

  /** The `n` topmost values of `m` exist and are all strings. */
  predicate StringsOnTop(m: Message, n: nat)
  {
    n <= |m| && forall k :: |m| - n <= k < |m| ==> IsString(m[k])
  }

  /** All `n` pops succeed exactly when the `n` topmost values are strings. */
  lemma StringRunFull(m: Message, n: nat)
    ensures StringRun(m, n) == n <==> StringsOnTop(m, n)
  {
    var k := StringRun(m, n);
    if k < n && k < |m| {
      assert |m| - n <= |m| - 1 - k < |m|;
    }
  }
}
