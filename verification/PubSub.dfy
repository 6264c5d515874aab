/**
 * Publish and subscribe, from the messages that a Redis server sends: every
 * message published to a channel or pattern reaches its subscriber once and in
 * order, and a subscription ends with its last unsubscribe message.
 */
module PubSub {
  import opened Bytes
  import opened PubSubReply
  import opened AsyncContext
  import Resp

  // ---- The messages of the server ----

  /** What the server tells a subscriber; counts are those of the subscriptions left. */
  datatype Notice =
    | Subscribed(name: Name, count: int)
    | PatternSubscribed(name: Name, count: int)
    | Unsubscribed(name: Name, count: int)
    | PatternUnsubscribed(name: Name, count: int)
    | Published(name: Name, payload: seq<byte>)
    | Matched(name: Name, channel: Name, payload: seq<byte>)

  function Str(s: seq<byte>): Reply {
    Resp.TextReply(Resp.String, s)
  }

  /** As an array in RESP2, as a push message in RESP3. */
  function AsReply(n: Notice, push: bool): Reply {
    Resp.AggregateReply(if push then Resp.Push else Resp.Array,
      match n
      case Subscribed(name, count) => [Str(Octets("subscribe")), Str(name), Resp.IntegerReply(count)]
      case PatternSubscribed(name, count) => [Str(Octets("psubscribe")), Str(name), Resp.IntegerReply(count)]
      case Unsubscribed(name, count) => [Str(Octets("unsubscribe")), Str(name), Resp.IntegerReply(count)]
      case PatternUnsubscribed(name, count) => [Str(Octets("punsubscribe")), Str(name), Resp.IntegerReply(count)]
      case Published(name, payload) => [Str(Octets("message")), Str(name), Str(payload)]
      case Matched(name, channel, payload) => [Str(Octets("pmessage")), Str(name), Str(channel), Str(payload)])
  }

  predicate ForPattern(n: Notice) {
    n.PatternSubscribed? || n.PatternUnsubscribed? || n.Matched?
  }

  // ---- How they are read ----

  lemma PlainFold(w: seq<byte>)
    requires forall i :: 0 <= i < |w| ==> 97 <= w[i] <= 122
    ensures CString(w) == w && Folded(w) == w && SameWord(w, w) && SameStart(w, w)
  {
  }

  lemma Words()
    ensures SUBSCRIBE != UNSUBSCRIBE && SUBSCRIBE != MESSAGE && UNSUBSCRIBE != MESSAGE
    ensures Octets("psubscribe")[1..] == SUBSCRIBE && Octets("punsubscribe")[1..] == UNSUBSCRIBE
    ensures Octets("pmessage")[1..] == MESSAGE
  {
    assert |SUBSCRIBE| == 9 && |UNSUBSCRIBE| == 11 && |MESSAGE| == 7;
  }

  function VerbFor(n: Notice): Verb {
    match n
    case Subscribed(_, _) => SubscribeVerb
    case PatternSubscribed(_, _) => SubscribeVerb
    case Unsubscribed(_, _) => UnsubscribeVerb
    case PatternUnsubscribed(_, _) => UnsubscribeVerb
    case Published(_, _) => OtherVerb
    case Matched(_, _, _) => OtherVerb
  }

  lemma WordRead(kind: seq<byte>, word: seq<byte>)
    requires word in {SUBSCRIBE, UNSUBSCRIBE, MESSAGE} && (kind == word || kind == [Octet('p')] + word)
    ensures Offset(kind) == (if kind == word then 0 else 1) && kind[Offset(kind)..] == word && |kind| >= 7
    ensures SameStart(word, word)
    ensures VerbOf(word)
         == if word == SUBSCRIBE then SubscribeVerb else if word == UNSUBSCRIBE then UnsubscribeVerb else OtherVerb
  {
    Words();
    assert forall i :: 0 <= i < |word| ==> 97 <= word[i] <= 122;
    PlainFold(word);
  }

  function WordOf(n: Notice): seq<byte> {
    match VerbFor(n)
    case SubscribeVerb => SUBSCRIBE
    case UnsubscribeVerb => UNSUBSCRIBE
    case OtherVerb => MESSAGE
  }

  /** The first two elements, and the third of a message that counts. */
  lemma NoticeElements(n: Notice, push: bool)
    ensures var e := AsReply(n, push).elements;
      && |e| >= 3 && IsString(e[0]) && e[1] == Str(n.name)
      && e[0].text == (if ForPattern(n) then [Octet('p')] + WordOf(n) else WordOf(n))
      && ((n.Unsubscribed? || n.PatternUnsubscribed?) ==> e[2] == Resp.IntegerReply(n.count))
  {
    Words();
    var p := [Octet('p')];
    assert Octets("psubscribe") == p + SUBSCRIBE && Octets("punsubscribe") == p + UNSUBSCRIBE;
    assert Octets("pmessage") == p + MESSAGE;
  }

  lemma PatternWord(word: seq<byte>)
    requires word in {SUBSCRIBE, UNSUBSCRIBE, MESSAGE}
    ensures [Octet('p')] + word != word
  {
    assert |[Octet('p')] + word| != |word|;
  }

  /** Whatever the protocol, the message is read as what the server means by it. */
  lemma NoticeRead(n: Notice, push: bool)
    ensures var r := AsReply(n, push);
      && IsPush(r) == push && IsArray(r) == !push && !IsError(r) && Length(r) >= 3 && IsSubscribeReply(r)
      && MessageOf(r).Some?
      && MessageOf(r).value.pattern == ForPattern(n) && MessageOf(r).value.name == n.name
      && MessageOf(r).value.verb == VerbFor(n)
      && ((n.Unsubscribed? || n.PatternUnsubscribed?) ==> MessageOf(r).value.left == Some(n.count))
  {
    var r := AsReply(n, push);
    NoticeElements(n, push);
    Words();
    PatternWord(WordOf(n));
    WordRead(r.elements[0].text, WordOf(n));
  }

  // ---- Listening to one channel or pattern ----

  /** What happens to a context that listens: messages and answers arrive, and the user calls in. */
  datatype Happening = Arrives(notice: Notice) | Answered(reply: Reply) | Calls(action: Action)

  /** The subscription is not ended, and an answer is neither an aggregate nor an error. */
  predicate Goes(h: Happening, pattern: bool, name: Name) {
    match h
    case Arrives(n) => !(VerbFor(n).UnsubscribeVerb? && ForPattern(n) == pattern && n.name == name)
    case Answered(r) => !r.AggregateReply? && !(r.TextReply? && r.kind == Resp.Error)
    case Calls(a) => !Touches(a, pattern, name)
  }

  /** The messages about one channel or pattern. */
  function Due(hs: seq<Happening>, push: bool, pattern: bool, name: Name): seq<Reply> {
    if hs == [] then []
    else
      var h := hs[|hs| - 1];
      Due(hs[..|hs| - 1], push, pattern, name)
      + if h.Arrives? && ForPattern(h.notice) == pattern && h.notice.name == name then [AsReply(h.notice, push)] else []
  }

  function Told(cb: Callback, rs: seq<Reply>): seq<Call> {
    if cb.hasFn then seq(|rs|, i requires 0 <= i < |rs| => Call(cb, Some(rs[i]))) else []
  }

  /** The reply is a message about that channel or pattern. */
  predicate IsAbout(r: Reply, pattern: bool, name: Name) {
    && r.AggregateReply? && |r.elements| >= 3 && r.elements[1] == Str(name)
    && r.elements[0] in (if pattern then {Str(Octets("psubscribe")), Str(Octets("punsubscribe")), Str(Octets("pmessage"))}
                         else {Str(Octets("subscribe")), Str(Octets("unsubscribe")), Str(Octets("message"))})
  }

  /** The calls with a message about it. */
  function About(calls: seq<Call>, pattern: bool, name: Name): seq<Call> {
    if calls == [] then []
    else
      var c := calls[|calls| - 1];
      About(calls[..|calls| - 1], pattern, name)
      + if c.reply.Some? && IsAbout(c.reply.value, pattern, name) then [c] else []
  }

  /** Subscribed to it with this callback, and no command waits that was issued before subscribing. */
  ghost predicate Listening(c: Context, push: bool, pattern: bool, name: Name, cb: Callback)
    reads c
  {
    && c.Steady() && c.Traced() && !c.freed && !c.aborted && !c.err && (push || !c.supportsPush)
    && c.subscribed && c.replies == [] && c.Untouched(pattern, name)
    && name in c.DictOf(pattern) && c.DictOf(pattern)[name].cb == cb
  }

  lemma {:induction false} AboutReplied(calls: seq<Call>, pattern: bool, name: Name)
    ensures About(Replied(calls), pattern, name) == About(calls, pattern, name)
    decreases |calls|
  {
    if calls != [] {
      var before, c := calls[..|calls| - 1], calls[|calls| - 1];
      AboutReplied(before, pattern, name);
      if c.reply.Some? {
        assert (Replied(before) + [c])[..|Replied(before)|] == Replied(before);
      }
    }
  }

  lemma AboutMade(calls: seq<Call>, c: Call, pattern: bool, name: Name)
    ensures About(Made(calls, c), pattern, name) == About(calls, pattern, name)
         + if c.cb.hasFn && c.reply.Some? && IsAbout(c.reply.value, pattern, name) then [c] else []
  {
    if c.cb.hasFn {
      assert (calls + [c])[..|calls|] == calls;
    }
  }

  lemma NoticeAbout(n: Notice, push: bool, pattern: bool, name: Name)
    ensures IsAbout(AsReply(n, push), pattern, name) <==> ForPattern(n) == pattern && n.name == name
  {
    NoticeElements(n, push);
    Words();
    assert Octets("subscribe")[0] == 115 && Octets("unsubscribe")[0] == 117 && Octets("message")[0] == 109;
    assert Octets("psubscribe")[0] == 112 && Octets("punsubscribe")[0] == 112 && Octets("pmessage")[0] == 112;
  }

  /** A message that does not end a subscription leaves it, and so subscribed mode, as it is. */
  lemma EntryStays(c: Context, m: Message, pattern: bool, name: Name)
    requires name in c.DictOf(pattern) && !(m.verb.UnsubscribeVerb? && m.pattern == pattern && m.name == name)
    ensures !c.EndsSubscriptions(m)
    ensures var d := if m.pattern == pattern then AfterMessage(c.DictOf(pattern), m) else c.DictOf(pattern);
      && name in d && d[name].cb == c.DictOf(pattern)[name].cb
  {
  }

  /** To a context that listens, a message is for its subscriber. */
  lemma NoticeRole(c: Context, push: bool, n: Notice)
    requires c.subscribed && c.replies == [] && (push || !c.supportsPush)
    ensures var r := AsReply(n, push);
      && MessageOf(r).Some? && c.RoleOf(r) == ForSubscriber(MessageOf(r).value) && IsPush(r) == push
      && MessageOf(r).value.pattern == ForPattern(n) && MessageOf(r).value.name == n.name
      && MessageOf(r).value.verb == VerbFor(n) && c.Told(r) == c.Subscriber(MessageOf(r).value)
      && !c.LacksCount(MessageOf(r).value)
      && ((n.Unsubscribed? || n.PatternUnsubscribed?) ==> MessageOf(r).value.left == Some(n.count))
  {
    NoticeRead(n, push);
  }

  lemma TracedAbout(c: Context, pattern: bool, name: Name)
    requires c.Traced()
    ensures About(c.notified, pattern, name) == About(Notes(c.taken), pattern, name)
  {
    AboutReplied(c.notified, pattern, name);
  }

  lemma DueOne(n: Notice, push: bool, pattern: bool, name: Name)
    ensures Due([Arrives(n)], push, pattern, name)
         == if IsAbout(AsReply(n, push), pattern, name) then [AsReply(n, push)] else []
  {
    NoticeAbout(n, push, pattern, name);
    assert [Arrives(n)][..0] == [];
  }

  /** A note of one message more. */
  lemma NotedOne(taken: seq<Taken>, t: Taken, n: Notice, push: bool, pattern: bool, name: Name, cb: Callback)
    requires t.reply == AsReply(n, push) && (IsAbout(t.reply, pattern, name) ==> t.told == cb)
    ensures About(Notes(taken + [t]), pattern, name)
         == About(Notes(taken), pattern, name) + Told(cb, Due([Arrives(n)], push, pattern, name))
  {
    NotesSnoc(taken, t);
    AboutMade(Notes(taken), Call(t.told, Some(t.reply)), pattern, name);
    DueOne(n, push, pattern, name);
  }

  /** One message: those about the name are told to its subscriber, and it goes on listening. */
  method Hear(c: Context, push: bool, pattern: bool, name: Name, ghost cb: Callback, n: Notice)
    requires Listening(c, push, pattern, name, cb) && Goes(Arrives(n), pattern, name)
    modifies c
    ensures About(c.notified, pattern, name)
         == old(About(c.notified, pattern, name)) + Told(cb, Due([Arrives(n)], push, pattern, name))
    ensures c.freed || Listening(c, push, pattern, name, cb)
    ensures c.inband == old(c.inband) && (c.freed ==> c.Traced())
  {
    var r := AsReply(n, push);
    ghost var t := Taken(r, c.RoleOf(r), c.Told(r));
    Expected(c, push, pattern, name, cb, n);
    TracedAbout(c, pattern, name);
    NotedOne(c.taken, t, n, push, pattern, name, cb);
    RegularsSnoc(c.taken, t);
    var stop := c.ProcessNext(r);
    TracedAbout(c, pattern, name);
  }

  /** What a message is to a context that listens to a name. */
  lemma Expected(c: Context, push: bool, pattern: bool, name: Name, cb: Callback, n: Notice)
    requires Listening(c, push, pattern, name, cb) && Goes(Arrives(n), pattern, name)
    ensures var r := AsReply(n, push);
      && IsPush(r) == push && c.RoleOf(r).ForSubscriber? && !c.LacksCount(c.RoleOf(r).m) && c.KeepsMode(r)
      && (IsAbout(r, pattern, name) ==> c.Told(r) == cb)
      && Lookup(c.DictAfter(r, pattern), name).Some? && Lookup(c.DictAfter(r, pattern), name).value.cb == cb
  {
    NoticeRole(c, push, n);
    NoticeAbout(n, push, pattern, name);
    ExpectedAs(c, pattern, name, cb, AsReply(n, push), MessageOf(AsReply(n, push)).value);
  }

  lemma ExpectedAs(c: Context, pattern: bool, name: Name, cb: Callback, r: Reply, m: Message)
    requires c.subscribed && c.replies == [] && c.RoleOf(r) == ForSubscriber(m) && c.Told(r) == c.Subscriber(m)
    requires name in c.DictOf(pattern) && c.DictOf(pattern)[name].cb == cb
    requires !(m.verb.UnsubscribeVerb? && m.pattern == pattern && m.name == name)
    ensures c.KeepsMode(r) && (m.pattern == pattern && m.name == name ==> c.Told(r) == cb)
    ensures Lookup(c.DictAfter(r, pattern), name).Some? && Lookup(c.DictAfter(r, pattern), name).value.cb == cb
  {
    EntryStays(c, m, pattern, name);
  }

  /** An answer in between goes to the command in line, or to nobody, and to no subscriber. */
  method TakeAnswer(c: Context, push: bool, pattern: bool, name: Name, ghost cb: Callback, r: Reply)
    requires Listening(c, push, pattern, name, cb) && Goes(Answered(r), pattern, name)
    modifies c
    ensures About(c.notified, pattern, name) == old(About(c.notified, pattern, name))
    ensures c.freed || Listening(c, push, pattern, name, cb)
    ensures c.inband == old(c.inband) + if old(c.subReplies) != [] then [r] else []
  {
    ghost var t := Taken(r, c.RoleOf(r), c.Told(r));
    TracedAbout(c, pattern, name);
    NotesSnoc(c.taken, t);
    RegularsSnoc(c.taken, t);
    var stop := c.ProcessNext(r);
    TracedAbout(c, pattern, name);
  }

  /** The user calls in; nobody is told anything with a reply. */
  method CallIn(c: Context, push: bool, pattern: bool, name: Name, ghost cb: Callback, action: Action)
    requires Listening(c, push, pattern, name, cb) && Goes(Calls(action), pattern, name)
    modifies c
    ensures About(c.notified, pattern, name) == old(About(c.notified, pattern, name))
    ensures c.freed || Listening(c, push, pattern, name, cb)
    ensures c.inband == old(c.inband)
  {
    TracedAbout(c, pattern, name);
    c.Command(action);
    TracedAbout(c, pattern, name);
  }

  lemma DueSnoc(hs: seq<Happening>, h: Happening, push: bool, pattern: bool, name: Name, cb: Callback)
    ensures Told(cb, Due(hs + [h], push, pattern, name))
         == Told(cb, Due(hs, push, pattern, name)) + Told(cb, Due([h], push, pattern, name))
    ensures !h.Arrives? ==> Told(cb, Due([h], push, pattern, name)) == []
  {
    assert (hs + [h])[..|hs|] == hs && [h][..0] == [];
  }

  /** No message is ever given to a command as its answer. */
  ghost predicate NoMessages(rs: seq<Reply>, from: nat) {
    forall k :: from <= k < |rs| ==> !rs[k].AggregateReply?
  }

  method Happen(c: Context, push: bool, pattern: bool, name: Name, ghost cb: Callback, h: Happening)
    requires Listening(c, push, pattern, name, cb) && Goes(h, pattern, name)
    modifies c
    ensures About(c.notified, pattern, name)
         == old(About(c.notified, pattern, name)) + Told(cb, Due([h], push, pattern, name))
    ensures c.freed || Listening(c, push, pattern, name, cb)
    ensures old(c.inband) <= c.inband && NoMessages(c.inband, |old(c.inband)|)
  {
    DueSnoc([], h, push, pattern, name, cb);
    match h {
      case Arrives(n) => Hear(c, push, pattern, name, cb, n);
      case Answered(r) => TakeAnswer(c, push, pattern, name, cb, r);
      case Calls(action) => CallIn(c, push, pattern, name, cb, action);
    }
  }

  /**
   * As long as the subscription lasts, every message about the channel or
   * pattern is told to its subscriber, once and in order, whatever else arrives
   * and whatever user code does; a call after which the context is freed is the
   * last one.
   */
  method Listen(c: Context, push: bool, pattern: bool, name: Name, ghost cb: Callback, hs: seq<Happening>)
    returns (done: nat)
    requires Listening(c, push, pattern, name, cb) && forall i :: 0 <= i < |hs| ==> Goes(hs[i], pattern, name)
    modifies c
    ensures done <= |hs| && (done == |hs| || c.freed)
    ensures About(c.notified, pattern, name)
         == old(About(c.notified, pattern, name)) + Told(cb, Due(hs[..done], push, pattern, name))
    ensures old(c.inband) <= c.inband && NoMessages(c.inband, |old(c.inband)|)
    ensures c.freed || Listening(c, push, pattern, name, cb)
  {
    done := 0;
    ghost var start, inband := About(c.notified, pattern, name), c.inband;
    assert start + Told(cb, Due([], push, pattern, name)) == start;
    while done < |hs| && !c.freed
      invariant done <= |hs| && (c.freed || Listening(c, push, pattern, name, cb))
      invariant About(c.notified, pattern, name) == start + Told(cb, Due(hs[..done], push, pattern, name))
      invariant inband <= c.inband && NoMessages(c.inband, |inband|)
    {
      DueNext(hs, done, push, pattern, name, cb, start);
      Happen(c, push, pattern, name, cb, hs[done]);
      done := done + 1;
    }
  }

  lemma DueNext(hs: seq<Happening>, i: nat, push: bool, pattern: bool, name: Name, cb: Callback, start: seq<Call>)
    requires i < |hs|
    ensures start + Told(cb, Due(hs[..i], push, pattern, name)) + Told(cb, Due([hs[i]], push, pattern, name))
         == start + Told(cb, Due(hs[..i + 1], push, pattern, name))
  {
    assert hs[..i] + [hs[i]] == hs[..i + 1];
    DueSnoc(hs[..i], hs[i], push, pattern, name, cb);
  }

  // ---- From the first subscribe to the last unsubscribe ----

  /** The server's confirmation of a subscription. */
  function Confirmed(pattern: bool, name: Name, count: int): Notice {
    if pattern then PatternSubscribed(name, count) else Subscribed(name, count)
  }

  /** Its word that it has ended. */
  function Ended(pattern: bool, name: Name, count: int): Notice {
    if pattern then PatternUnsubscribed(name, count) else Unsubscribed(name, count)
  }

  /** The only subscription, with so many confirmations still to come; user code makes no other. */
  ghost predicate Only(c: Context, push: bool, pattern: bool, name: Name, cb: Callback, pending: int)
    reads c
  {
    && c.Steady() && c.Traced() && !c.freed && !c.aborted && !c.err && (push || !c.supportsPush)
    && c.subscribed && c.replies == [] && c.PlainScript()
    && c.DictOf(pattern) == map[name := Subscription(cb, pending)] && c.DictOf(!pattern) == map[]
  }

  /** No subscription is left, and user code makes none. */
  ghost predicate NoneLeft(c: Context)
    reads c
  {
    && c.Steady() && c.Traced() && !c.freed && !c.aborted && !c.err
    && !c.subscribed && c.PlainScript() && c.channels == map[] && c.patterns == map[]
  }

  lemma PlainTouchesNothing(c: Context)
    requires c.PlainScript()
    ensures forall p, n :: c.Untouched(p, n)
  {
    forall p, n, k | 0 <= k < |c.script| ensures NoneTouches(c.script[k], p, n) {
      assert PlainActions(c.script[k]);
    }
  }

  /** Dictionaries that agree on every name are the same. */
  lemma SameDict(d: Dict, d': Dict)
    requires forall n :: Lookup(d, n) == Lookup(d', n)
    ensures d == d'
  {
    forall n ensures n in d <==> n in d' {
      assert Lookup(d, n) == Lookup(d', n);
    }
    forall n | n in d ensures d[n] == d'[n] {
      assert Lookup(d, n) == Lookup(d', n);
    }
  }

  /** What a message about the only subscription is. */
  lemma OnlyRole(c: Context, push: bool, pattern: bool, name: Name, cb: Callback, pending: int, n: Notice)
    requires Only(c, push, pattern, name, cb, pending) && n in {Confirmed(pattern, name, 1), Ended(pattern, name, 0)}
    ensures var r := AsReply(n, push);
      && IsPush(r) == push && c.RoleOf(r).ForSubscriber? && !c.LacksCount(c.RoleOf(r).m)
      && IsAbout(r, pattern, name) && c.Told(r) == cb
      && c.RoleOf(r).m.pattern == pattern && c.RoleOf(r).m.name == name && c.RoleOf(r).m.verb == VerbFor(n)
      && (VerbFor(n).UnsubscribeVerb? ==> c.RoleOf(r).m.left == Some(0))
      && VerbFor(n) in {SubscribeVerb, UnsubscribeVerb}
  {
    NoticeRole(c, push, n);
    NoticeAbout(n, push, pattern, name);
  }

  /** A confirmation is counted, and the end comes when all are. */
  lemma OnlyAfter(c: Context, push: bool, pattern: bool, name: Name, cb: Callback, pending: int, n: Notice)
    requires Only(c, push, pattern, name, cb, pending) && n in {Confirmed(pattern, name, 1), Ended(pattern, name, 0)}
    ensures var r := AsReply(n, push);
      && c.DictAfter(r, !pattern) == map[]
      && (VerbFor(n).SubscribeVerb? ==>
            c.KeepsMode(r) && c.DictAfter(r, pattern) == map[name := Subscription(cb, pending - 1)])
      && (VerbFor(n).UnsubscribeVerb? && pending == 0 ==> c.EndsMode(r) && c.DictAfter(r, pattern) == map[])
      && (VerbFor(n).UnsubscribeVerb? && pending != 0 ==> c.KeepsMode(r) && c.DictAfter(r, pattern) == c.DictOf(pattern))
  {
    OnlyRole(c, push, pattern, name, cb, pending, n);
    AfterOnly(name, cb, pending, c.RoleOf(AsReply(n, push)).m);
  }

  lemma AfterOnly(name: Name, cb: Callback, pending: int, m: Message)
    requires m.name == name
    ensures var d := map[name := Subscription(cb, pending)];
      && (m.verb.SubscribeVerb? ==> AfterMessage(d, m) == map[name := Subscription(cb, pending - 1)])
      && (m.verb.UnsubscribeVerb? ==> AfterMessage(d, m) == if pending == 0 then map[] else d)
  {
    var d := map[name := Subscription(cb, pending)];
    assert d - {name} == map[];
    assert d[name := Subscription(cb, pending - 1)] == map[name := Subscription(cb, pending - 1)];
  }

  /** The context takes in such a message. */
  method Take(c: Context, push: bool, pattern: bool, name: Name, ghost cb: Callback, ghost pending: int, n: Notice)
    requires Only(c, push, pattern, name, cb, pending) && n in {Confirmed(pattern, name, 1), Ended(pattern, name, 0)}
    modifies c
    ensures About(c.notified, pattern, name) == old(About(c.notified, pattern, name)) + Told(cb, [AsReply(n, push)])
    ensures c.freed || if VerbFor(n).SubscribeVerb? then Only(c, push, pattern, name, cb, pending - 1)
                       else if pending == 0 then NoneLeft(c) else Only(c, push, pattern, name, cb, pending)
  {
    var r := AsReply(n, push);
    ghost var t := Taken(r, c.RoleOf(r), c.Told(r));
    ghost var mine, others := c.DictAfter(r, pattern), c.DictAfter(r, !pattern);
    OnlyRole(c, push, pattern, name, cb, pending, n);
    OnlyAfter(c, push, pattern, name, cb, pending, n);
    PlainTouchesNothing(c);
    TracedAbout(c, pattern, name);
    NotedOne(c.taken, t, n, push, pattern, name, cb);
    DueOne(n, push, pattern, name);
    var stop := c.ProcessNext(r);
    TracedAbout(c, pattern, name);
    if !c.freed {
      SameDict(c.DictOf(pattern), mine);
      SameDict(c.DictOf(!pattern), others);
    }
  }

  lemma EnterOne(dict: Dict, name: Name, cb: Callback)
    ensures Enter(dict, [name], cb, 1)
         == dict[name := Subscription(cb, if name in dict then dict[name].pendingSubs + 1 else 1)]
  {
    assert [name][1..] == [];
  }

  /** One more SUBSCRIBE of the only name. */
  method SubscribeAgain(c: Context, push: bool, pattern: bool, name: Name, cb: Callback, ghost pending: nat)
    requires Only(c, push, pattern, name, cb, pending) && !c.Closing()
    modifies c
    ensures Only(c, push, pattern, name, cb, pending + 1) && !c.Closing()
    ensures About(c.notified, pattern, name) == old(About(c.notified, pattern, name))
  {
    TracedAbout(c, pattern, name);
    EnterOne(c.DictOf(pattern), name, cb);
    c.Command(Issue(cb, Subscribe(pattern, [name])));
    assert c.DictOf(pattern) == map[name := Subscription(cb, pending + 1)];
    TracedAbout(c, pattern, name);
  }

  method SubscribeFirst(c: Context, push: bool, pattern: bool, name: Name, cb: Callback)
    requires NoneLeft(c) && c.replies == [] && !c.Closing() && (push || !c.supportsPush)
    modifies c
    ensures Only(c, push, pattern, name, cb, 1) && !c.Closing()
    ensures About(c.notified, pattern, name) == old(About(c.notified, pattern, name))
  {
    TracedAbout(c, pattern, name);
    EnterOne(map[], name, cb);
    c.Command(Issue(cb, Subscribe(pattern, [name])));
    TracedAbout(c, pattern, name);
  }

  /** The messages of a subscription confirmed so many times. */
  function Confirmations(push: bool, pattern: bool, name: Name, n: nat): seq<Reply> {
    if n == 0 then [] else Confirmations(push, pattern, name, n - 1) + [AsReply(Confirmed(pattern, name, 1), push)]
  }

  lemma ToldMore(start: seq<Call>, cb: Callback, rs: seq<Reply>, r: Reply)
    ensures start + Told(cb, rs) + Told(cb, [r]) == start + Told(cb, rs + [r])
  {
    assert Told(cb, rs + [r]) == Told(cb, rs) + Told(cb, [r]);
  }

  lemma ToldNothing(start: seq<Call>, cb: Callback)
    ensures start + Told(cb, []) == start
  {
  }

  method TakeConfirmed(c: Context, push: bool, pattern: bool, name: Name, ghost cb: Callback, ghost pending: int,
                       ghost rs: seq<Reply>, ghost start: seq<Call>)
    requires Only(c, push, pattern, name, cb, pending) && About(c.notified, pattern, name) == start + Told(cb, rs)
    modifies c
    ensures About(c.notified, pattern, name) == start + Told(cb, rs + [AsReply(Confirmed(pattern, name, 1), push)])
    ensures c.freed || Only(c, push, pattern, name, cb, pending - 1)
  {
    ToldMore(start, cb, rs, AsReply(Confirmed(pattern, name, 1), push));
    Take(c, push, pattern, name, cb, pending, Confirmed(pattern, name, 1));
  }

  method TakeEnded(c: Context, push: bool, pattern: bool, name: Name, ghost cb: Callback, ghost pending: int,
                   ghost rs: seq<Reply>, ghost start: seq<Call>)
    requires Only(c, push, pattern, name, cb, pending) && About(c.notified, pattern, name) == start + Told(cb, rs)
    modifies c
    ensures About(c.notified, pattern, name) == start + Told(cb, rs + [AsReply(Ended(pattern, name, 0), push)])
    ensures c.freed || if pending == 0 then NoneLeft(c) else Only(c, push, pattern, name, cb, pending)
  {
    ToldMore(start, cb, rs, AsReply(Ended(pattern, name, 0), push));
    Take(c, push, pattern, name, cb, pending, Ended(pattern, name, 0));
  }

  method SubscribeAll(c: Context, push: bool, pattern: bool, name: Name, cb: Callback, commands: nat)
    requires NoneLeft(c) && c.replies == [] && !c.Closing() && (push || !c.supportsPush) && commands > 0
    modifies c
    ensures Only(c, push, pattern, name, cb, commands)
    ensures About(c.notified, pattern, name) == old(About(c.notified, pattern, name))
  {
    SubscribeFirst(c, push, pattern, name, cb);
    for i := 1 to commands
      invariant Only(c, push, pattern, name, cb, i) && !c.Closing()
      invariant About(c.notified, pattern, name) == old(About(c.notified, pattern, name))
    {
      SubscribeAgain(c, push, pattern, name, cb, i);
    }
  }

  method ConfirmAll(c: Context, push: bool, pattern: bool, name: Name, ghost cb: Callback, ghost pending: int, n: nat,
                    ghost start: seq<Call>)
    requires Only(c, push, pattern, name, cb, pending) && About(c.notified, pattern, name) == start
    modifies c
    ensures c.freed || Only(c, push, pattern, name, cb, pending - n)
    ensures c.freed || About(c.notified, pattern, name) == start + Told(cb, Confirmations(push, pattern, name, n))
  {
    if n == 0 {
      ToldNothing(start, cb);
      return;
    }
    ConfirmAll(c, push, pattern, name, cb, pending, n - 1, start);
    if c.freed { return; }
    ghost var rs := Confirmations(push, pattern, name, n - 1);
    TakeConfirmed(c, push, pattern, name, cb, pending - (n - 1), rs, start);
    assert Confirmations(push, pattern, name, n) == rs + [AsReply(Confirmed(pattern, name, 1), push)];
  }

  /** The messages of a subscription confirmed so many times and then ended. */
  function Messages(push: bool, pattern: bool, name: Name, confirmed: nat): seq<Reply> {
    Confirmations(push, pattern, name, confirmed) + [AsReply(Ended(pattern, name, 0), push)]
  }

  method ConfirmAndEnd(c: Context, push: bool, pattern: bool, name: Name, ghost cb: Callback, ghost pending: int,
                       confirmed: nat, ghost start: seq<Call>)
    requires Only(c, push, pattern, name, cb, pending) && About(c.notified, pattern, name) == start
    modifies c
    ensures c.freed || if confirmed == pending then NoneLeft(c) else Only(c, push, pattern, name, cb, pending - confirmed)
    ensures c.freed || About(c.notified, pattern, name) == start + Told(cb, Messages(push, pattern, name, confirmed))
  {
    ConfirmAll(c, push, pattern, name, cb, pending, confirmed, start);
    if c.freed { return; }
    TakeEnded(c, push, pattern, name, cb, pending - confirmed, Confirmations(push, pattern, name, confirmed), start);
  }

  /**
   * A name is subscribed to by some commands, and some of them are confirmed
   * before the server says that the subscription has ended: the subscriber is
   * told of every message, the name is forgotten and subscribed mode left if
   * and only if all commands were confirmed.
   */
  method Lifecycle(c: Context, push: bool, pattern: bool, name: Name, cb: Callback, commands: nat, confirmed: nat)
    requires NoneLeft(c) && c.replies == [] && !c.Closing() && (push || !c.supportsPush) && commands > 0
    modifies c
    ensures c.freed || if confirmed == commands then NoneLeft(c) else Only(c, push, pattern, name, cb, commands - confirmed)
    ensures c.freed || About(c.notified, pattern, name)
      == old(About(c.notified, pattern, name)) + Told(cb, Messages(push, pattern, name, confirmed))
  {
    ghost var start := About(c.notified, pattern, name);
    SubscribeAll(c, push, pattern, name, cb, commands);
    ConfirmAndEnd(c, push, pattern, name, cb, commands, confirmed, start);
  }

  /**
   * A name subscribed to in one command behind one that was there before takes
   * over its counter: confirmed once and ended, it is forgotten if and only if
   * the other one had no confirmation to come.
   */
  lemma CarriedOver(dict: Dict, a: Name, b: Name, cb: Callback, push: bool)
    requires a in dict && b !in dict
    ensures var confirmed, ended := MessageOf(AsReply(Subscribed(b, 2), push)), MessageOf(AsReply(Unsubscribed(b, 0), push));
      && confirmed.Some? && ended.Some?
      && (b !in AfterMessage(AfterMessage(Enter(dict, [b], cb, 1), confirmed.value), ended.value))
      && (b !in AfterMessage(AfterMessage(Enter(dict, [a, b], cb, 1), confirmed.value), ended.value)
          <==> dict[a].pendingSubs == 0)
  {
    NoticeRead(Subscribed(b, 2), push);
    NoticeRead(Unsubscribed(b, 0), push);
    CounterCarriesOver(dict, a, b, cb);
  }

  // ---- Push messages that nobody subscribed to ----

  /** What redis sends to a client that caches keys when they change. */
  function Invalidation(keys: Reply): Reply {
    Resp.AggregateReply(Resp.Push, [Str(Octets("invalidate")), keys])
  }

  /** It goes to the push handler, if there is one, and to nobody else. */
  lemma InvalidationIsSpontaneous(c: Context, keys: Reply)
    ensures c.RoleOf(Invalidation(keys)) == Spontaneous
    ensures c.Told(Invalidation(keys)) == if c.hasPushCallback then PUSH_HANDLER else NO_CALLBACK
  {
    var w := Octets("invalidate");
    assert w[0] == 105 && |w| == 10;
    assert Offset(w) == 0 && w[Offset(w)..] == w;
    NoStart(w, SUBSCRIBE);
    NoStart(w, MESSAGE);
    NoStart(w, UNSUBSCRIBE);
  }

  /** A word of small letters with another first letter. */
  lemma NoStart(w: seq<byte>, word: seq<byte>)
    requires w != [] && word != [] && w[0] != word[0] && forall i :: 0 <= i < |w| ==> 97 <= w[i] <= 122
    ensures !SameStart(w, word)
  {
    PlainFold(w);
    if |w| <= |word| {
      assert Folded(w)[0] != word[..|w|][0];
    }
  }
}
