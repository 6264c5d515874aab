/** Octets and the small wrappers shared by the protocol modules. */
module Bytes {
  newtype byte = x: int | 0 <= x < 256

  /** The octet of an ASCII character. */
  function Octet(c: char): byte
    requires c as int < 256
  {
    c as int as byte
  }

  function Octets(s: string): (o: seq<byte>)
    requires forall i :: 0 <= i < |s| ==> s[i] as int < 256
    ensures |o| == |s| && forall i :: 0 <= i < |s| ==> o[i] == Octet(s[i])
  {
    seq(|s|, i requires 0 <= i < |s| => Octet(s[i]))
  }

  datatype Option<+T> = None | Some(value: T)

  const CR: byte := 13
  const LF: byte := 10

  /** The line terminator of the Redis protocol. */
  const CRLF: seq<byte> := [CR, LF]
}
