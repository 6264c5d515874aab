/**
 * How async.c reads a reply as a pub/sub message: by the words of its first
 * element, compared as C strings without regard to case.
 */
module PubSubReply {
  import opened Bytes
  import Resp

  type Reply = Resp.Reply

  /** Channels and patterns are sds strings. */
  type Name = seq<byte>

  datatype Verb = SubscribeVerb | UnsubscribeVerb | OtherVerb

  /** A pub/sub message: its kind, its channel or pattern, and the subscriptions left if it tells. */
  datatype Message = Message(pattern: bool, verb: Verb, name: Name, left: Option<int>)

  // ---- C strings ----

  /** tolower() of the C locale. */
  function Fold(b: byte): byte {
    if 65 <= b <= 90 then b + 32 else b
  }

  function Folded(s: seq<byte>): (f: seq<byte>)
    ensures |f| == |s| && forall i :: 0 <= i < |s| ==> f[i] == Fold(s[i])
  {
    seq(|s|, i requires 0 <= i < |s| => Fold(s[i]))
  }

  /** The octets before the first NUL. */
  function CString(s: seq<byte>): (c: seq<byte>)
    ensures c <= s && 0 !in c && (0 !in s ==> c == s)
  {
    if s == [] || s[0] == 0 then [] else [s[0]] + CString(s[1..])
  }

  /** strcasecmp() is 0; the word is in small letters and without NUL. */
  predicate SameWord(s: seq<byte>, word: seq<byte>) {
    Folded(CString(s)) == word
  }

  /** strncasecmp() of as many octets as s has is 0. */
  predicate SameStart(s: seq<byte>, word: seq<byte>) {
    if 0 in s then Folded(CString(s)) == word
    else |s| <= |word| && Folded(s) == word[..|s|]
  }

  const SUBSCRIBE: seq<byte> := Octets("subscribe")
  const UNSUBSCRIBE: seq<byte> := Octets("unsubscribe")
  const MESSAGE: seq<byte> := Octets("message")

  // ---- Replies ----

  predicate IsError(r: Reply) {
    r.TextReply? && r.kind.Error?
  }

  predicate IsArray(r: Reply) {
    r.AggregateReply? && r.kind.Array?
  }

  /** redisIsPushReply() */
  predicate IsPush(r: Reply) {
    r.AggregateReply? && r.kind.Push?
  }

  predicate IsString(r: Reply) {
    r.TextReply? && r.kind.String?
  }

  /** The number of elements, 0 for a reply without. */
  function Length(r: Reply): nat {
    if r.AggregateReply? then |r.elements| else 0
  }

  /** 1 if the word begins with a p in either case. */
  function Offset(s: seq<byte>): (k: nat)
    ensures k <= |s|
  {
    if s != [] && Fold(s[0]) == 112 then 1 else 0
  }

  /** redisIsSubscribeReply() */
  predicate IsSubscribeReply(r: Reply) {
    && Length(r) >= 1 && IsString(r.elements[0]) && |r.elements[0].text| >= 7
    && var s := r.elements[0].text[Offset(r.elements[0].text)..];
       SameStart(s, SUBSCRIBE) || SameStart(s, MESSAGE) || SameStart(s, UNSUBSCRIBE)
  }

  function VerbOf(s: seq<byte>): Verb {
    if SameWord(s, SUBSCRIBE) then SubscribeVerb
    else if SameWord(s, UNSUBSCRIBE) then UnsubscribeVerb
    else OtherVerb
  }

  /**
   * What __redisGetSubscribeCallback() takes from a reply; None when one of
   * its assertions on the first two elements fails or there are no two.
   */
  function MessageOf(r: Reply): Option<Message> {
    if Length(r) < 2 || !IsString(r.elements[0]) || !IsString(r.elements[1]) then None
    else
      var kind := r.elements[0].text;
      var left := if Length(r) >= 3 && r.elements[2].IntegerReply? then Some(r.elements[2].value) else None;
      Some(Message(Offset(kind) == 1, VerbOf(kind[Offset(kind)..]), r.elements[1].text, left))
  }
}
