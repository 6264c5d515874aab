/**
 * The asynchronous context of async.c. Callbacks of regular commands wait in
 * two lists, one of them for commands issued while subscribed; user code runs
 * inside callbacks and may issue commands, disconnect or free the context.
 */
module AsyncContext {
  import opened Bytes
  import opened PubSubReply

  /** A callback; the function pointer may be NULL. */
  datatype Callback = Callback(id: int, hasFn: bool)

  const NO_CALLBACK := Callback(0, false)
  const PUSH_HANDLER := Callback(0, true)

  /** The entry of a subscription dictionary. */
  datatype Subscription = Subscription(cb: Callback, pendingSubs: int)

  type Dict = map<Name, Subscription>

  datatype Command =
    | Regular
    | Subscribe(pattern: bool, names: seq<Name>)
    | Unsubscribe

  /** What user code does. */
  datatype Action = Issue(cb: Callback, cmd: Command) | Disconnect | Free

  /** What the event library and the user do to a context. */
  datatype Event =
    | Act(action: Action)
    | Connected
    | ConnectFailed
    | Read(input: seq<Reply>, ok: bool)
    | ReadFailed
    | Written(bytes: nat)
    | WriteFailed
    | Timeout(commandTimeout: bool)

  /** The command takes a place in a list of callbacks; SUBSCRIBE without a channel does too. */
  predicate IsRegular(cmd: Command) {
    cmd.Regular? || (cmd.Subscribe? && cmd.names == [])
  }

  /** A callback taken off its list, and the reply it is given; None when it is told that there is none. */
  datatype Call = Call(cb: Callback, reply: Option<Reply>)

  function Callbacks(calls: seq<Call>): (s: seq<Callback>)
    ensures |s| == |calls| && forall k :: 0 <= k < |s| ==> s[k] == calls[k].cb
  {
    seq(|calls|, k requires 0 <= k < |calls| => calls[k].cb)
  }

  /** A call is made if there is a function to call. */
  function Made(calls: seq<Call>, c: Call): seq<Call> {
    if c.cb.hasFn then calls + [c] else calls
  }

  /** The calls that have a function to call. */
  function Runnable(s: seq<Call>): seq<Call> {
    if s == [] then [] else Made(Runnable(s[..|s| - 1]), s[|s| - 1])
  }

  lemma RunnableSnoc(s: seq<Call>, c: Call)
    ensures Runnable(s + [c]) == Made(Runnable(s), c)
  {
    assert (s + [c])[..|s|] == s;
  }

  /** The k-th call got the k-th of these replies, and the calls beyond them got none. */
  ghost predicate Paired(calls: seq<Call>, inband: seq<Reply>) {
    && |inband| <= |calls|
    && forall k :: 0 <= k < |calls| ==> calls[k].reply == if k < |inband| then Some(inband[k]) else None
  }

  // ---- What is read, and what becomes of it ----

  /** A reply, what it was to the context when its turn came, and the subscriber or push handler that is told of it. */
  datatype Taken = Taken(reply: Reply, role: Role, told: Callback)

  function Replies(taken: seq<Taken>): (s: seq<Reply>)
    ensures |s| == |taken| && forall k :: 0 <= k < |s| ==> s[k] == taken[k].reply
  {
    seq(|taken|, k requires 0 <= k < |taken| => taken[k].reply)
  }

  /** Those that were answers to regular commands. */
  function Regulars(taken: seq<Taken>): seq<Reply> {
    if taken == [] then []
    else
      var last := taken[|taken| - 1];
      Regulars(taken[..|taken| - 1]) + if last.role.Regular? then [last.reply] else []
  }

  lemma RegularsSnoc(taken: seq<Taken>, t: Taken)
    ensures Regulars(taken + [t]) == Regulars(taken) + if t.role.Regular? then [t.reply] else []
  {
    assert (taken + [t])[..|taken|] == taken;
  }

  /** Those that someone is told of outside the line of commands. */
  function Notes(taken: seq<Taken>): seq<Call> {
    if taken == [] then []
    else
      var last := taken[|taken| - 1];
      Made(Notes(taken[..|taken| - 1]), Call(last.told, Some(last.reply)))
  }

  lemma NotesSnoc(taken: seq<Taken>, t: Taken)
    ensures Notes(taken + [t]) == Made(Notes(taken), Call(t.told, Some(t.reply)))
  {
    assert (taken + [t])[..|taken|] == taken;
  }

  /** The calls with a reply. */
  function Replied(calls: seq<Call>): seq<Call> {
    if calls == [] then []
    else
      var last := calls[|calls| - 1];
      if last.reply.Some? then Replied(calls[..|calls| - 1]) + [last] else Replied(calls[..|calls| - 1])
  }

  lemma RepliedSnoc(calls: seq<Call>, c: Call)
    ensures Replied(calls + [c]) == if c.reply.Some? then Replied(calls) + [c] else Replied(calls)
  {
    assert (calls + [c])[..|calls|] == calls;
  }

  lemma RepliedMade(calls: seq<Call>, c: Call)
    requires c.reply.Some?
    ensures Replied(Made(calls, c)) == Made(Replied(calls), c)
  {
    RepliedSnoc(calls, c);
  }

  /** From `k` on all are answers or spontaneous; only the last may be neither, and then it ends the run. */
  ghost predicate OnlyAnswers(taken: seq<Taken>, k: nat, over: bool) {
    forall j :: k <= j < |taken| ==> taken[j].role in {Role.Regular, Spontaneous} || (over && j == |taken| - 1)
  }

  lemma OneMore(base: seq<Reply>, input: seq<Reply>, i: nat)
    requires i < |input|
    ensures base + input[..i] + [input[i]] == base + input[..i + 1]
  {
  }

  /** The replies of a connection: what is read once it is established. */
  function Heard(events: seq<Event>, connected: bool): seq<Reply> {
    if events == [] then []
    else
      var before := events[..|events| - 1];
      Heard(before, connected)
      + if connected || Connected in before then InputOf(events[|events| - 1]) else []
  }

  lemma {:induction false} HeardGrows(events: seq<Event>, n: nat, connected: bool)
    requires n <= |events|
    ensures Heard(events[..n], connected) <= Heard(events, connected)
    decreases |events|
  {
    if n == |events| {
      assert events[..n] == events;
    } else {
      var before := events[..|events| - 1];
      assert before[..n] == events[..n];
      HeardGrows(before, n, connected);
    }
  }

  function InputOf(event: Event): seq<Reply> {
    if event.Read? then event.input else []
  }

  /** No channel is subscribed to. */
  predicate PlainAction(action: Action) {
    action.Issue? && action.cmd.Subscribe? ==> action.cmd.names == []
  }

  predicate PlainEvent(event: Event) {
    event.Act? ==> PlainAction(event.action)
  }

  predicate PlainEvents(events: seq<Event>) {
    forall k :: 0 <= k < |events| ==> PlainEvent(events[k])
  }

  predicate PlainActions(actions: seq<Action>) {
    forall k :: 0 <= k < |actions| ==> PlainAction(actions[k])
  }

  predicate AllPlain(script: seq<seq<Action>>) {
    forall k :: 0 <= k < |script| ==> PlainActions(script[k])
  }

  predicate Avoids(script: seq<seq<Action>>, pattern: bool, name: Name) {
    forall k :: 0 <= k < |script| ==> NoneTouches(script[k], pattern, name)
  }

  // ---- Subscriptions ----

  function Lookup(dict: Dict, name: Name): Option<Subscription> {
    if name in dict then Some(dict[name]) else None
  }

  /** The action subscribes to this channel or pattern. */
  predicate Touches(action: Action, pattern: bool, name: Name) {
    action.Issue? && action.cmd.Subscribe? && action.cmd.pattern == pattern && name in action.cmd.names
  }

  predicate NoneTouches(actions: seq<Action>, pattern: bool, name: Name) {
    forall k :: 0 <= k < |actions| ==> !Touches(actions[k], pattern, name)
  }

  /**
   * Enters every name. The counter of a name already there goes up by one; a
   * new name gets the counter of the name before it.
   */
  function Enter(dict: Dict, names: seq<Name>, cb: Callback, pending: int): Dict
    decreases |names|
  {
    if names == [] then dict
    else
      var p := if names[0] in dict then dict[names[0]].pendingSubs + 1 else pending;
      Enter(dict[names[0] := Subscription(cb, p)], names[1..], cb, p)
  }

  /** Exactly the names are entered, with this callback. */
  lemma {:induction false} Entered(dict: Dict, names: seq<Name>, cb: Callback, pending: int, n: Name)
    ensures var d := Enter(dict, names, cb, pending);
      && (n in d <==> n in dict || n in names)
      && (n in names ==> d[n].cb == cb) && (n in dict && n !in names ==> d[n] == dict[n])
    decreases |names|
  {
    if names != [] {
      var p := if names[0] in dict then dict[names[0]].pendingSubs + 1 else pending;
      Entered(dict[names[0] := Subscription(cb, p)], names[1..], cb, p, n);
      assert n in names <==> n == names[0] || n in names[1..];
    }
  }

  /** Subscribed to in one command after a channel already there, a channel starts with that one's counter. */
  lemma CounterCarriesOver(dict: Dict, a: Name, b: Name, cb: Callback)
    requires a in dict && b !in dict
    ensures var both, alone := Enter(dict, [a, b], cb, 1), Enter(dict, [b], cb, 1);
      && both == dict[a := Subscription(cb, dict[a].pendingSubs + 1)][b := Subscription(cb, dict[a].pendingSubs + 1)]
      && alone == dict[b := Subscription(cb, 1)]
  {
    var p := dict[a].pendingSubs + 1;
    var d := dict[a := Subscription(cb, p)];
    assert [a, b][1..] == [b] && [b][1..] == [];
    assert Enter(dict, [a, b], cb, 1) == Enter(d, [b], cb, p) == Enter(d[b := Subscription(cb, p)], [], cb, p);
  }

  /** The names of a dictionary in some order. */
  ghost predicate Enumerates(names: seq<Name>, dict: Dict) {
    multiset(names) == multiset(dict.Keys)
  }

  /** Each of these subscriptions is told that there will be no more messages. */
  ghost function Goodbyes(dict: Dict, names: seq<Name>): (calls: seq<Call>)
    requires forall n :: n in names ==> n in dict
  {
    seq(|names|, i requires 0 <= i < |names| => Call(dict[names[i]].cb, None))
  }

  ghost predicate Farewell(before: seq<Call>, dict: Dict, after: seq<Call>) {
    exists names ::
      && Enumerates(names, dict) && (forall n :: n in names ==> n in dict)
      && after == before + Runnable(Goodbyes(dict, names))
  }

  lemma GoodbyesSnoc(dict: Dict, names: seq<Name>, name: Name)
    requires name in dict && forall n :: n in names ==> n in dict
    ensures Runnable(Goodbyes(dict, names + [name]))
         == Made(Runnable(Goodbyes(dict, names)), Call(dict[name].cb, None))
  {
    assert Goodbyes(dict, names + [name]) == Goodbyes(dict, names) + [Call(dict[name].cb, None)];
    RunnableSnoc(Goodbyes(dict, names), Call(dict[name].cb, None));
  }

  /** Goodbyes are no replies. */
  lemma {:induction false} GoodbyesSilent(before: seq<Call>, s: seq<Call>)
    requires forall k :: 0 <= k < |s| ==> s[k].reply.None?
    ensures Replied(before + Runnable(s)) == Replied(before)
    decreases |s|
  {
    if s == [] {
      assert before + Runnable(s) == before;
    } else {
      var t := s[..|s| - 1];
      GoodbyesSilent(before, t);
      RepliedSnoc(before + Runnable(t), s[|s| - 1]);
      assert before + Runnable(s) == Made(before + Runnable(t), s[|s| - 1]);
    }
  }

  lemma FarewellSilent(before: seq<Call>, dict: Dict, after: seq<Call>)
    requires Farewell(before, dict, after)
    ensures Replied(after) == Replied(before)
  {
    var names :| Enumerates(names, dict) && (forall n :: n in names ==> n in dict)
      && after == before + Runnable(Goodbyes(dict, names));
    GoodbyesSilent(before, Goodbyes(dict, names));
  }

  lemma GoodbyeNext(before: seq<Call>, dict: Dict, names: seq<Name>, left: set<Name>, name: Name)
    requires name in left && left <= dict.Keys && multiset(names) == multiset(dict.Keys - left)
    requires forall n :: n in names ==> n in dict
    ensures multiset(names + [name]) == multiset(dict.Keys - (left - {name}))
    ensures before + Runnable(Goodbyes(dict, names + [name]))
         == Made(before + Runnable(Goodbyes(dict, names)), Call(dict[name].cb, None))
  {
    GoodbyesSnoc(dict, names, name);
    NameTaken(dict.Keys, left, name);
  }

  lemma NameTaken(keys: set<Name>, left: set<Name>, name: Name)
    requires name in left && left <= keys
    ensures multiset(keys - (left - {name})) == multiset(keys - left) + multiset{name}
  {
    assert keys - (left - {name}) == (keys - left) + {name};
  }

  /** What a reply is to a context. */
  datatype Role =
    | Spontaneous
    | Regular
    | Refusal
    | Unexpected
    | Unclaimed
    | Malformed
    | ForSubscriber(m: Message)

  /** A dictionary after a message about one of its names. */
  function AfterMessage(dict: Dict, m: Message): Dict {
    if m.name !in dict then dict
    else match m.verb {
      case SubscribeVerb => dict[m.name := dict[m.name].(pendingSubs := dict[m.name].pendingSubs - 1)]
      case UnsubscribeVerb => if dict[m.name].pendingSubs == 0 then dict - {m.name} else dict
      case OtherVerb => dict
    }
  }

  class Context {
    var connected: bool
    var disconnecting: bool
    var freeing: bool
    var inCallback: bool
    var subscribed: bool
    var supportsPush: bool
    var noAutoFree: bool
    var err: bool
    var obuf: nat
    var replies: seq<Callback>
    var subReplies: seq<Callback>
    var channels: Dict
    var patterns: Dict
    const hasPushCallback: bool

    /** What the user does in the callbacks still to run, one entry each. */
    var script: seq<seq<Action>>
    var freed: bool
    /** An assertion on the format of a message has failed. */
    var aborted: bool

    /** Callbacks of accepted regular commands, those taken off the lists, and the calls made. */
    ghost var issued: seq<Callback>
    ghost var delivered: seq<Call>
    ghost var ran: seq<Call>
    /** The replies given to regular callbacks, and the calls of subscription and push callbacks. */
    ghost var inband: seq<Reply>
    ghost var notified: seq<Call>
    /** The replies handled, each with what it was. */
    ghost var taken: seq<Taken>

    /** The callbacks still waiting, first in line first. */
    ghost function Pending(): seq<Callback>
      reads this`replies, this`subReplies
    {
      replies + subReplies
    }

    /**
     * Every accepted callback has been delivered or waits, in the order of
     * issue, and each reply went to the callback in its turn; the second list
     * is in use only while subscribed.
     */
    ghost predicate Inv()
      reads this`issued, this`delivered, this`replies, this`subReplies, this`inband,
            this`subscribed, this`disconnecting, this`err, this`noAutoFree
    {
      && issued == Callbacks(delivered) + Pending() && Paired(delivered, inband)
      && (!subscribed ==> subReplies == []) && (disconnecting ==> err || !noAutoFree)
    }

    /** Between events, moreover, what was delivered has been called. */
    ghost predicate Settled()
      reads this`issued, this`delivered, this`replies, this`subReplies, this`inband, this`subscribed,
            this`disconnecting, this`err, this`noAutoFree, this`ran, this`inCallback, this`freed
    {
      Inv() && ran == Runnable(delivered) && !inCallback && (freed ==> Pending() == [])
    }

    /** Until an error or the end, only replies take callbacks off the lists. */
    ghost predicate Steady()
      reads this`issued, this`delivered, this`replies, this`subReplies, this`inband, this`subscribed,
            this`disconnecting, this`err, this`noAutoFree, this`ran, this`inCallback, this`freed
    {
      Settled() && (|inband| == |delivered| || err || freed)
    }

    /**
     * The answers given are exactly the replies that were answers when their
     * turn came, and all others told to anyone went to those they were for.
     */
    ghost predicate Traced()
      reads this`inband, this`taken, this`notified
    {
      inband == Regulars(taken) && Replied(notified) == Notes(taken)
    }

    /** No reply is given to anyone. */
    twostate predicate Silent()
      reads this`inband, this`taken, this`notified
    {
      && inband == old(inband) && taken == old(taken)
      && old(notified) <= notified && Replied(notified) == old(Replied(notified))
    }

    /** No subscription, now or in the user code to come. */
    predicate Plain()
      reads this`subscribed, this`script
    {
      !subscribed && PlainScript()
    }

    predicate PlainScript()
      reads this`script
    {
      AllPlain(script)
    }

    /** The dictionary of patterns or of channels. */
    function DictOf(pattern: bool): Dict
      reads this`channels, this`patterns
    {
      if pattern then patterns else channels
    }

    /** The user code to come does not subscribe to this channel or pattern. */
    predicate Untouched(pattern: bool, name: Name)
      reads this`script
    {
      Avoids(script, pattern, name)
    }

    /** What user code does not subscribe to keeps its entry; subscribed mode lasts, with no command in the first list. */
    twostate predicate UserSpares()
      reads this`channels, this`patterns, this`script, this`subscribed, this`replies
    {
      && (forall p, n :: old(Untouched(p, n)) ==> Untouched(p, n) && Lookup(DictOf(p), n) == old(Lookup(DictOf(p), n)))
      && (old(PlainScript()) ==> PlainScript()) && (old(subscribed) ==> subscribed)
      && (old(subscribed) && old(replies) == [] ==> replies == [])
    }

    /** Unless the context comes to an end, the connection stands, and plain use stays plain. */
    twostate predicate GoesOn()
      reads this`subscribed, this`script, this`connected, this`aborted, this`err, this`freed
    {
      freed || aborted || err || (connected == old(connected) && (old(Plain()) ==> Plain()))
    }

    /** No further command is accepted. */
    predicate Closing()
      reads this`disconnecting, this`freeing
    {
      disconnecting || freeing
    }

    constructor (noAutoFree: bool, hasPushCallback: bool, script: seq<seq<Action>>)
      ensures Steady() && !Closing() && !freed && !aborted && !err && issued == [] && taken == [] && Traced()
      ensures !connected && !subscribed && this.script == script
    {
      connected, disconnecting, freeing, inCallback := false, false, false, false;
      subscribed, supportsPush, err, freed, aborted := false, false, false, false, false;
      this.noAutoFree, this.hasPushCallback := noAutoFree, hasPushCallback;
      obuf := 0;
      replies, subReplies, channels, patterns := [], [], map[], map[];
      this.script := script;
      issued, delivered, ran, inband, notified, taken := [], [], [], [], [], [];
    }

    // ---- Issuing commands ----

    /** Enters every name; a counter raised for one name carries over to the next. */
    method AddSubscriptions(pattern: bool, names: seq<Name>, cb: Callback)
      modifies this`channels, this`patterns
      ensures channels == if pattern then old(channels) else Enter(old(channels), names, cb, 1)
      ensures patterns == if pattern then Enter(old(patterns), names, cb, 1) else old(patterns)
      ensures var dict, was := if pattern then patterns else channels, if pattern then old(patterns) else old(channels);
              && (forall n :: n in dict <==> n in was || n in names)
              && (forall n :: n in names ==> dict[n].cb == cb)
              && (forall n :: n in was && n !in names ==> dict[n] == was[n])
    {
      var pending := 1;
      var was := if pattern then patterns else channels;
      var dict := was;
      assert names[0..] == names;
      for i := 0 to |names|
        invariant Enter(dict, names[i..], cb, pending) == Enter(was, names, cb, 1)
      {
        assert names[i..][1..] == names[i + 1..];
        if names[i] in dict {
          pending := dict[names[i]].pendingSubs + 1;
        }
        dict := dict[names[i] := Subscription(cb, pending)];
      }
      if pattern {
        patterns := dict;
      } else {
        channels := dict;
      }
      forall n ensures n in dict <==> n in was || n in names {
        Entered(was, names, cb, 1, n);
      }
      forall n | n in dict ensures if n in names then dict[n].cb == cb else dict[n] == was[n] {
        Entered(was, names, cb, 1, n);
      }
    }

    /** Puts the callback of a regular command in line. */
    method PushCallback(cb: Callback)
      requires Inv()
      modifies this`replies, this`subReplies, this`issued
      ensures Inv() && Pending() == old(Pending()) + [cb] && issued == old(issued) + [cb]
      ensures subscribed ==> replies == old(replies)
    {
      if subscribed {
        subReplies := subReplies + [cb];
      } else {
        replies := replies + [cb];
      }
      issued := issued + [cb];
      assert Pending() == old(Pending()) + [cb];
    }

    /** __redisAsyncCommand(): accepted unless closing, or unsubscribing while not subscribed. */
    method AsyncCommand(cb: Callback, cmd: Command) returns (ok: bool)
      requires Inv()
      modifies this`subscribed, this`channels, this`patterns, this`replies, this`subReplies, this`obuf, this`issued
      ensures Inv()
      ensures ok == (!Closing() && (cmd.Unsubscribe? ==> old(subscribed)))
      ensures !ok ==> replies == old(replies) && subReplies == old(subReplies)
      ensures issued == old(issued) + (if ok && IsRegular(cmd) then [cb] else [])
      ensures Pending() == old(Pending()) + (if ok && IsRegular(cmd) then [cb] else [])
      ensures subscribed == (old(subscribed) || (ok && cmd.Subscribe? && cmd.names != []))
      ensures obuf == old(obuf) + (if ok then 1 else 0) && (old(subscribed) ==> replies == old(replies))
      ensures forall p, n :: !Touches(Issue(cb, cmd), p, n) ==> Lookup(DictOf(p), n) == old(Lookup(DictOf(p), n))
      ensures ok && cmd.Subscribe? && cmd.pattern ==> patterns == Enter(old(patterns), cmd.names, cb, 1)
      ensures ok && cmd.Subscribe? && !cmd.pattern ==> channels == Enter(old(channels), cmd.names, cb, 1)
      ensures !(ok && cmd.Subscribe? && cmd.pattern) ==> patterns == old(patterns)
      ensures !(ok && cmd.Subscribe? && !cmd.pattern) ==> channels == old(channels)
      ensures !IsRegular(cmd) ==> replies == old(replies)
    {
      if disconnecting || freeing { return false; }
      if cmd.Subscribe? && cmd.names != [] {
        subscribed := true;
        AddSubscriptions(cmd.pattern, cmd.names, cb);
      } else if cmd.Unsubscribe? {
        if !subscribed { return false; }
      } else {
        PushCallback(cb);
      }
      obuf := obuf + 1;
      return true;
    }

    // ---- Callbacks and what they may do ----

    /** What user code inside a callback leaves alone. */
    twostate predicate UserKeeps()
      reads this`delivered, this`ran, this`err, this`aborted, this`inband, this`taken, this`notified, this`freed,
            this`connected, this`supportsPush, this`issued, this`disconnecting, this`freeing,
            this`replies, this`subReplies, this`channels, this`patterns
    {
      && delivered == old(delivered) && ran == old(ran) && err == old(err) && aborted == old(aborted)
      && inband == old(inband) && taken == old(taken) && notified == old(notified)
      && freed == old(freed) && connected == old(connected) && supportsPush == old(supportsPush)
      && old(issued) <= issued
      && (old(disconnecting) ==> disconnecting) && (old(freeing) ==> freeing)
      && (old(Closing()) ==> issued == old(issued) && replies == old(replies) && subReplies == old(subReplies)
                             && channels == old(channels) && patterns == old(patterns))
    }

    /** __redisRunCallback() and __redisRunPushCallback(): the function, if any, runs once. */
    method RunCallback(cb: Callback, reply: Option<Reply>, regular: bool)
      requires Inv() && !freed && !inCallback
      modifies this
      ensures Inv() && !inCallback
      ensures ran == if regular then Made(old(ran), Call(cb, reply)) else old(ran)
      ensures notified == if regular then old(notified) else Made(old(notified), Call(cb, reply))
      ensures inband == old(inband) && taken == old(taken)
      ensures delivered == old(delivered) && err == old(err) && aborted == old(aborted)
      ensures !freed && connected == old(connected) && supportsPush == old(supportsPush)
      ensures old(issued) <= issued && |script| <= |old(script)|
      ensures (old(disconnecting) ==> disconnecting) && (old(freeing) ==> freeing)
      ensures old(Closing()) || |script| == |old(script)| ==>
                issued == old(issued) && replies == old(replies) && subReplies == old(subReplies)
      ensures old(Closing()) ==> channels == old(channels) && patterns == old(patterns)
      ensures (!cb.hasFn ==> freeing == old(freeing)) && (old(Plain()) ==> Plain()) && UserSpares()
      decreases |script|, 0, 2
    {
      if cb.hasFn {
        if regular {
          ran := ran + [Call(cb, reply)];
        } else {
          notified := notified + [Call(cb, reply)];
        }
        RunFunction();
      }
    }

    /** The flag is set around the user code. */
    method RunFunction()
      requires Inv() && !freed && !inCallback
      modifies this
      ensures Inv() && !inCallback && UserKeeps() && |script| <= |old(script)| && (old(Plain()) ==> Plain())
      ensures UserSpares()
      ensures |script| == |old(script)| ==>
                issued == old(issued) && replies == old(replies) && subReplies == old(subReplies)
      decreases |script|, 0, 1
    {
      inCallback := true;
      RunScript();
      inCallback := false;
    }

    /** The function is told that there is no reply, while the context is shut down. */
    method RunWithoutReply(cb: Callback, regular: bool)
      requires Inv() && !freed && !inCallback && Closing()
      modifies this
      ensures Inv() && !inCallback && !freed && Closing() && ShutdownKeeps() && delivered == old(delivered)
      ensures replies == old(replies) && subReplies == old(subReplies)
      ensures ran == if regular then Made(old(ran), Call(cb, None)) else old(ran)
      ensures notified == if regular then old(notified) else Made(old(notified), Call(cb, None))
      decreases |script|, 0, 3
    {
      RunCallback(cb, None, regular);
    }

    /** The user code of the next callback. */
    method RunScript()
      requires Inv() && !freed && inCallback
      modifies this
      ensures Inv() && inCallback && UserKeeps() && |script| <= |old(script)| && (old(Plain()) ==> Plain())
      ensures UserSpares()
      ensures |script| == |old(script)| ==>
                issued == old(issued) && replies == old(replies) && subReplies == old(subReplies)
      decreases |script|, 0, 0
    {
      if script != [] {
        var actions := script[0];
        script := script[1..];
        UserCode(actions);
      }
    }

    method UserCode(actions: seq<Action>)
      requires Inv() && !freed && inCallback
      modifies this
      ensures Inv() && inCallback && script == old(script) && UserKeeps()
      ensures PlainActions(actions) && !old(subscribed) ==> !subscribed
      ensures forall p, n :: NoneTouches(actions, p, n) ==> Lookup(DictOf(p), n) == old(Lookup(DictOf(p), n))
      ensures (old(subscribed) ==> subscribed) && (old(subscribed) && old(replies) == [] ==> replies == [])
      decreases |script|, 6
    {
      for i := 0 to |actions|
        invariant Inv() && inCallback && script == old(script) && UserKeeps()
        invariant PlainActions(actions) && !old(subscribed) ==> !subscribed
        invariant forall p, n :: NoneTouches(actions, p, n) ==> Lookup(DictOf(p), n) == old(Lookup(DictOf(p), n))
        invariant (old(subscribed) ==> subscribed) && (old(subscribed) && old(replies) == [] ==> replies == [])
      {
        UserAction(actions[i]);
      }
    }

    method UserAction(action: Action)
      requires Inv() && !freed && inCallback
      modifies this
      ensures Inv() && inCallback && script == old(script) && UserKeeps()
      ensures PlainAction(action) && !old(subscribed) ==> !subscribed
      ensures forall p, n :: !Touches(action, p, n) ==> Lookup(DictOf(p), n) == old(Lookup(DictOf(p), n))
      ensures (old(subscribed) ==> subscribed) && (old(subscribed) && old(replies) == [] ==> replies == [])
      decreases |script|, 5
    {
      match action {
        case Issue(cb, cmd) => var _ := AsyncCommand(cb, cmd);
        case Disconnect => AsyncDisconnect();
        case Free => AsyncFree();
      }
    }

    // ---- The two lists ----

    lemma Delivering(c: Call)
      requires issued == Callbacks(delivered) + Pending() && Pending() != [] && c.cb == Pending()[0]
      ensures issued == Callbacks(delivered + [c]) + Pending()[1..]
    {
      assert Callbacks(delivered + [c]) == Callbacks(delivered) + [c.cb];
    }

    /** Takes the first regular callback, for a reply or for none. */
    method ShiftReplies(reply: Option<Reply>) returns (cb: Callback)
      requires Inv() && replies != [] && (reply.Some? ==> |inband| == |delivered|)
      modifies this`replies, this`delivered, this`inband
      ensures Inv() && cb == old(replies)[0] && replies == old(replies)[1..]
      ensures delivered == old(delivered) + [Call(cb, reply)]
      ensures inband == old(inband) + (if reply.Some? then [reply.value] else [])
    {
      cb := replies[0];
      Delivering(Call(cb, reply));
      assert Pending()[1..] == replies[1..] + subReplies;
      replies := replies[1..];
      delivered := delivered + [Call(cb, reply)];
      inband := inband + if reply.Some? then [reply.value] else [];
    }

    /** Takes the first callback issued while subscribed; all earlier ones are gone. */
    method ShiftSubReplies(reply: Option<Reply>) returns (cb: Callback)
      requires Inv() && replies == [] && subReplies != [] && (reply.Some? ==> |inband| == |delivered|)
      modifies this`subReplies, this`delivered, this`inband
      ensures Inv() && cb == old(subReplies)[0] && subReplies == old(subReplies)[1..]
      ensures delivered == old(delivered) + [Call(cb, reply)]
      ensures inband == old(inband) + (if reply.Some? then [reply.value] else [])
    {
      cb := subReplies[0];
      Delivering(Call(cb, reply));
      assert Pending()[1..] == replies + subReplies[1..];
      subReplies := subReplies[1..];
      delivered := delivered + [Call(cb, reply)];
      inband := inband + if reply.Some? then [reply.value] else [];
    }

    // ---- Shutting down ----

    /** What shutting down leaves alone while the waiting callbacks are called. */
    twostate predicate ShutdownKeeps()
      reads this
    {
      && issued == old(issued) && inband == old(inband) && taken == old(taken) && err == old(err) && aborted == old(aborted)
      && old(delivered) <= delivered && old(notified) <= notified
      && channels == old(channels) && patterns == old(patterns) && |script| <= |old(script)|
    }

    /** Calls every waiting callback once, in order: first those of the first list. */
    method DrainReplies()
      requires Settled() && !freed && Closing()
      modifies this
      ensures Settled() && !freed && Closing() && replies == []
      ensures ShutdownKeeps() && notified == old(notified)
      decreases |script|, 1
    {
      while replies != []
        invariant Settled() && !freed && Closing()
        invariant ShutdownKeeps() && notified == old(notified)
        decreases |replies|
      {
        RunnableSnoc(delivered, Call(replies[0], None));
        var cb := ShiftReplies(None);
        RunWithoutReply(cb, true);
      }
    }

    /** Then those of the second. */
    method DrainSubReplies()
      requires Settled() && !freed && Closing() && replies == []
      modifies this
      ensures Settled() && !freed && Closing() && Pending() == []
      ensures ShutdownKeeps() && notified == old(notified)
      decreases |script|, 1
    {
      while subReplies != []
        invariant Settled() && !freed && Closing() && replies == []
        invariant ShutdownKeeps() && notified == old(notified)
        decreases |subReplies|
      {
        RunnableSnoc(delivered, Call(subReplies[0], None));
        var cb := ShiftSubReplies(None);
        RunWithoutReply(cb, true);
      }
    }

    /** Calls every subscription callback of a dictionary once. */
    method RunSubscriptions(dict: Dict)
      requires Settled() && !freed && Closing() && replies == [] && subReplies == []
      modifies this
      ensures Settled() && !freed && Closing() && replies == [] && subReplies == []
      ensures ShutdownKeeps() && Farewell(old(notified), dict, notified)
      decreases |script|, 1
    {
      var left := dict.Keys;
      ghost var names: seq<Name> := [];
      while left != {}
        invariant left <= dict.Keys && multiset(names) == multiset(dict.Keys - left)
        invariant forall n :: n in names ==> n in dict
        invariant Settled() && !freed && Closing() && replies == [] && subReplies == []
        invariant ShutdownKeeps() && notified == old(notified) + Runnable(Goodbyes(dict, names))
        decreases |left|
      {
        var name :| name in left;
        GoodbyeNext(old(notified), dict, names, left, name);
        left, names := left - {name}, names + [name];
        RunWithoutReply(dict[name].cb, false);
      }
      assert dict.Keys - left == dict.Keys;
      assert Enumerates(names, dict);
    }

    /** __redisAsyncFree(): runs what is pending without a reply and releases the context. */
    method FreeNow()
      requires Settled() && !freed && Closing()
      modifies this
      ensures Settled() && freed && issued == old(issued) == Callbacks(delivered) && ran == Runnable(delivered)
      ensures Silent() && err == old(err) && aborted == old(aborted)
      ensures old(delivered) <= delivered
      ensures exists between :: Farewell(old(notified), old(channels), between) && Farewell(between, old(patterns), notified)
      decreases |script|, 2
    {
      DrainReplies();
      DrainSubReplies();
      RunSubscriptions(channels);
      ghost var between := notified;
      RunSubscriptions(patterns);
      freed := true;
      assert issued == Callbacks(delivered) + [];
      assert Farewell(old(notified), old(channels), between) && Farewell(between, old(patterns), notified);
      FarewellSilent(old(notified), old(channels), between);
      FarewellSilent(between, old(patterns), notified);
    }

    /** redisAsyncFree(): inside a callback only a flag is set. */
    method AsyncFree()
      requires Inv() && !freed
      requires !inCallback ==> Settled()
      modifies this
      ensures old(inCallback) ==> Inv() && inCallback && script == old(script) && UserKeeps() && freeing
      ensures old(inCallback) ==> subscribed == old(subscribed) && replies == old(replies)
      ensures old(inCallback) ==> channels == old(channels) && patterns == old(patterns)
      ensures !old(inCallback) ==> Settled() && freed && issued == old(issued)
      ensures !old(inCallback) ==> Silent() && err == old(err) && aborted == old(aborted)
      decreases |script|, 3
    {
      freeing := true;
      if !inCallback {
        FreeNow();
      }
    }

    /**
     * __redisAsyncDisconnect(). Without an error no regular callback is left,
     * which the code asserts.
     */
    method DisconnectNow()
      requires Settled() && !freed
      requires !err ==> replies == [] && disconnecting
      modifies this
      ensures Settled() && issued == old(issued) && Silent()
      ensures err == old(err) && aborted == old(aborted)
      ensures freed == !old(noAutoFree)
      ensures !freed ==> delivered == old(delivered) && replies == old(replies) && disconnecting
      ensures !freed ==> subscribed == old(subscribed) && script == old(script) && connected == old(connected)
      ensures !freed ==> channels == old(channels) && patterns == old(patterns) && supportsPush == old(supportsPush)
      decreases |script|, 3
    {
      if err {
        disconnecting := true;
      }
      if !noAutoFree {
        FreeNow();
      }
    }

    /** redisAsyncDisconnect(): at once when nothing is pending, else after the last reply. */
    method AsyncDisconnect()
      requires Inv() && !freed
      requires !inCallback ==> Settled()
      modifies this
      ensures old(inCallback) ==> Inv() && inCallback && script == old(script) && UserKeeps() && disconnecting
      ensures old(inCallback) || !freed ==> subscribed == old(subscribed) && replies == old(replies)
      ensures old(inCallback) || !freed ==> channels == old(channels) && patterns == old(patterns)
      ensures !old(inCallback) ==> Settled() && issued == old(issued) && Silent()
      ensures !old(inCallback) ==> err == old(err) && aborted == old(aborted)
      ensures !old(inCallback) ==> freed == (old(replies) == [])
      ensures !old(inCallback) && !freed ==> disconnecting && delivered == old(delivered)
      ensures !old(inCallback) && !freed ==> script == old(script) && connected == old(connected)
      ensures !old(inCallback) && !freed ==> supportsPush == old(supportsPush)
      decreases |script|, 4
    {
      disconnecting := true;
      noAutoFree := false;
      if !inCallback && replies == [] {
        DisconnectNow();
      }
    }

    // ---- Replies ----

    /** The reply is read as a pub/sub message rather than as the answer to a command. */
    predicate IsMessage(reply: Reply)
      reads this`supportsPush
    {
      (IsArray(reply) && !supportsPush && Length(reply) >= 3) || IsPush(reply)
    }

    /** The subscription callback named by a message. */
    ghost function Subscriber(m: Message): Callback
      reads this`channels, this`patterns
    {
      var dict := if m.pattern then patterns else channels;
      if m.name in dict then dict[m.name].cb else NO_CALLBACK
    }

    /** The message ends the last subscription. */
    ghost predicate EndsSubscriptions(m: Message)
      reads this`channels, this`patterns
    {
      && m.verb.UnsubscribeVerb? && m.left == Some(0)
      && m.name in (if m.pattern then patterns else channels)
      && (if m.pattern then AfterMessage(patterns, m) else patterns) == map[]
      && (if m.pattern then channels else AfterMessage(channels, m)) == map[]
    }

    /** The message lacks the count that the code asserts it has. */
    ghost predicate LacksCount(m: Message)
      reads this`channels, this`patterns
    {
      m.verb.UnsubscribeVerb? && m.left.None? && m.name in (if m.pattern then patterns else channels)
    }

    /**
     * A reply answers the first command in line if there is one and it is not
     * a message that came between; other messages go to their subscriber.
     */
    ghost function RoleOf(reply: Reply): Role
      reads this`replies, this`subReplies, this`subscribed, this`supportsPush
    {
      if IsPush(reply) && !IsSubscribeReply(reply) then Spontaneous
      else if replies != [] then Role.Regular
      else if IsError(reply) then Refusal
      else if !subscribed then Unexpected
      else if !IsMessage(reply) then (if subReplies != [] then Role.Regular else Unclaimed)
      else if MessageOf(reply).None? then Malformed
      else ForSubscriber(MessageOf(reply).value)
    }

    /** Leaves subscribed mode: the second list becomes the first. */
    method MoveSubReplies()
      requires Inv() && replies == []
      modifies this`replies, this`subReplies, this`subscribed
      ensures Inv() && !subscribed && Pending() == old(Pending())
    {
      subscribed := false;
      while subReplies != []
        invariant Pending() == old(Pending()) && !subscribed
        decreases |subReplies|
      {
        assert replies + subReplies == (replies + [subReplies[0]]) + subReplies[1..];
        replies, subReplies := replies + [subReplies[0]], subReplies[1..];
      }
    }

    /** The first branch of __redisGetSubscribeCallback(). */
    method HandleMessage(m: Message) returns (cb: Callback)
      requires Inv() && replies == [] && subscribed
      modifies this`replies, this`subReplies, this`subscribed, this`channels, this`patterns, this`aborted
      ensures Inv() && Pending() == old(Pending())
      ensures cb == old(Subscriber(m))
      ensures patterns == if m.pattern then AfterMessage(old(patterns), m) else old(patterns)
      ensures channels == if m.pattern then old(channels) else AfterMessage(old(channels), m)
      ensures subscribed == !old(EndsSubscriptions(m)) && (subscribed ==> replies == [])
      ensures aborted == (old(aborted) || old(LacksCount(m)))
    {
      var dict := if m.pattern then patterns else channels;
      if m.name !in dict { return NO_CALLBACK; }
      var entry := dict[m.name];
      cb := entry.cb;
      if m.verb.SubscribeVerb? {
        dict := dict[m.name := entry.(pendingSubs := entry.pendingSubs - 1)];
      }
      if m.verb.UnsubscribeVerb? && entry.pendingSubs == 0 {
        dict := dict - {m.name};
      }
      if m.pattern {
        patterns := dict;
      } else {
        channels := dict;
      }
      if m.verb.UnsubscribeVerb? {
        if m.left.None? {
          aborted := true;
        } else if m.left.value == 0 && channels == map[] && patterns == map[] {
          MoveSubReplies();
        }
      }
    }

    /** Finds the callback for a reply: the first regular callback in line, or a subscriber. */
    method TakeCallback(reply: Reply) returns (cb: Callback, regular: bool)
      requires Inv() && |inband| == |delivered| && !aborted && ran == Runnable(delivered)
      requires RoleOf(reply) !in {Spontaneous, Refusal, Unexpected}
      modifies this`replies, this`subReplies, this`subscribed, this`channels, this`patterns, this`aborted,
               this`delivered, this`inband
      ensures Inv() && |inband| == |delivered|
      ensures Runnable(delivered) == if regular then Made(ran, Call(cb, Some(reply))) else ran
      ensures regular == (old(RoleOf(reply)) == Role.Regular) && (!old(subscribed) ==> !subscribed)
      ensures regular ==> old(Pending()) != [] && cb == old(Pending())[0] && Pending() == old(Pending())[1..]
      ensures regular ==> delivered == old(delivered) + [Call(cb, Some(reply))] && inband == old(inband) + [reply]
      ensures !regular ==> Pending() == old(Pending()) && delivered == old(delivered) && inband == old(inband)
      ensures channels == old(DictAfter(reply, false)) && patterns == old(DictAfter(reply, true))
      ensures (old(KeepsMode(reply)) ==> subscribed && replies == []) && (old(EndsMode(reply)) ==> !subscribed)
      ensures match old(RoleOf(reply)) {
                case Malformed => aborted && cb == NO_CALLBACK
                case ForSubscriber(m) => aborted == old(LacksCount(m)) && cb == old(Subscriber(m))
                case Unclaimed => !aborted && cb == NO_CALLBACK
                case _ => !aborted
              }
    {
      ghost var before := delivered;
      cb, regular := NO_CALLBACK, false;
      if replies != [] {
        assert Pending()[1..] == replies[1..] + subReplies;
        cb := ShiftReplies(Some(reply));
        regular := true;
      } else if !IsMessage(reply) {
        if subReplies != [] {
          assert Pending() == subReplies;
          cb := ShiftSubReplies(Some(reply));
          regular := true;
        }
      } else if MessageOf(reply).None? {
        aborted := true;
      } else {
        cb := HandleMessage(MessageOf(reply).value);
      }
      RunnableSnoc(before, Call(cb, Some(reply)));
    }

    /**
     * What handling a reply comes to. An answer is given to the next callback
     * in line, a message to its subscriber; unless the context is freed over
     * it, nothing else is called.
     */
    twostate predicate Handled(reply: Reply)
      reads this`replies, this`subReplies, this`subscribed, this`supportsPush, this`channels, this`patterns, this`inband,
            this`delivered, this`notified, this`aborted, this`err, this`freed, this`disconnecting, this`noAutoFree
    {
      match old(RoleOf(reply))
      case Regular =>
        var d := old(delivered) + [Call(old(Pending())[0], Some(reply))];
        && inband == old(inband) + [reply] && !aborted && !err && Replied(notified) == old(Replied(notified))
        && d <= delivered && (!freed ==> delivered == d && notified == old(notified))
      case ForSubscriber(m) =>
        var n := Made(old(notified), Call(old(Subscriber(m)), Some(reply)));
        && inband == old(inband) && aborted == old(LacksCount(m)) && !err
        && (aborted ==> !freed && notified == old(notified) && delivered == old(delivered))
        && (!aborted ==> n <= notified && Replied(notified) == Replied(n))
        && (!aborted && !freed ==> delivered == old(delivered) && notified == n)
      case Spontaneous =>
        && inband == old(inband) && delivered == old(delivered) && !freed && !aborted && !err
        && notified == if hasPushCallback then old(notified) + [Call(PUSH_HANDLER, Some(reply))] else old(notified)
      case Refusal =>
        && inband == old(inband) && !aborted && err && freed == !old(noAutoFree)
        && Replied(notified) == old(Replied(notified)) && (!freed ==> disconnecting && delivered == old(delivered))
      case Unclaimed =>
        && inband == old(inband) && delivered == old(delivered) && notified == old(notified)
        && !freed && !aborted && !err
      case Unexpected =>
        aborted && !err && inband == old(inband) && delivered == old(delivered) && notified == old(notified)
      case Malformed =>
        aborted && !err && inband == old(inband) && delivered == old(delivered) && notified == old(notified)
    }

    /** Who is told of a reply outside the line of commands. */
    ghost function Told(reply: Reply): Callback
      reads this`replies, this`subReplies, this`subscribed, this`supportsPush, this`channels, this`patterns
    {
      match RoleOf(reply)
      case ForSubscriber(m) => if LacksCount(m) then NO_CALLBACK else Subscriber(m)
      case Spontaneous => if hasPushCallback then PUSH_HANDLER else NO_CALLBACK
      case _ => NO_CALLBACK
    }

    /** An assertion of the code fails on the reply. */
    ghost predicate IsUnreadable(reply: Reply)
      reads this`replies, this`subReplies, this`subscribed, this`supportsPush, this`channels, this`patterns
    {
      match RoleOf(reply)
      case ForSubscriber(m) => LacksCount(m)
      case Unexpected => true
      case Malformed => true
      case _ => false
    }

    /** A dictionary after the reply. */
    ghost function DictAfter(reply: Reply, pattern: bool): Dict
      reads this`replies, this`subReplies, this`subscribed, this`supportsPush, this`channels, this`patterns
    {
      match RoleOf(reply)
      case ForSubscriber(m) => if m.pattern == pattern then AfterMessage(DictOf(pattern), m) else DictOf(pattern)
      case _ => DictOf(pattern)
    }

    /** The reply leaves subscribed mode as it is, with no command in the first list. */
    ghost predicate KeepsMode(reply: Reply)
      reads this`replies, this`subReplies, this`subscribed, this`supportsPush, this`channels, this`patterns
    {
      subscribed && replies == [] && (RoleOf(reply).ForSubscriber? ==> !EndsSubscriptions(RoleOf(reply).m))
    }

    /** The reply ends subscribed mode. */
    ghost predicate EndsMode(reply: Reply)
      reads this`replies, this`subReplies, this`subscribed, this`supportsPush, this`channels, this`patterns
    {
      RoleOf(reply).ForSubscriber? && EndsSubscriptions(RoleOf(reply).m)
    }

    /**
     * Unless the context comes to an end, the reply does to the dictionaries
     * what it says, and user code only what it says it does.
     */
    twostate predicate Lasts(reply: Reply)
      reads this`replies, this`subReplies, this`subscribed, this`supportsPush, this`channels,
            this`patterns, this`script, this`aborted, this`err, this`freed
    {
      freed || aborted || err ||
      (&& supportsPush == (old(supportsPush) || IsPush(reply))
       && (forall p, n :: old(Untouched(p, n)) ==>
             Untouched(p, n) && Lookup(DictOf(p), n) == Lookup(old(DictAfter(reply, p)), n))
       && (old(KeepsMode(reply)) ==> subscribed && replies == [])
       && (old(PlainScript()) ==> PlainScript() && (old(EndsMode(reply)) ==> !subscribed)))
    }

    /** Gives a reply to the callback found for it, and frees the context if that asked for it. */
    method GiveReply(cb: Callback, reply: Reply, regular: bool) returns (stop: bool)
      requires Inv() && !freed && !inCallback && !aborted && |inband| == |delivered|
      requires Runnable(delivered) == if regular then Made(ran, Call(cb, Some(reply))) else ran
      modifies this
      ensures Steady() && stop == freed && !aborted && err == old(err) && inband == old(inband) && taken == old(taken)
      ensures GoesOn() && (!freed ==> UserSpares() && supportsPush == old(supportsPush))
      ensures freed ==> cb.hasFn
      ensures old(issued) <= issued && old(delivered) <= delivered && (!freed ==> delivered == old(delivered))
      ensures var n := if regular then old(notified) else Made(old(notified), Call(cb, Some(reply)));
        n <= notified && Replied(notified) == Replied(n) && (!freed ==> notified == n)
    {
      if cb.hasFn {
        RunCallback(cb, Some(reply), regular);
        if freeing {
          FreeNow();
          return true;
        }
      }
      return false;
    }

    /** Finds the callback for a reply and gives the reply to it. */
    method Dispatch(reply: Reply) returns (stop: bool)
      requires Steady() && !freed && !aborted && !err && RoleOf(reply) !in {Spontaneous, Refusal, Unexpected}
      requires IsPush(reply) ==> supportsPush
      modifies this
      ensures Steady() && old(issued) <= issued && stop == (freed || aborted) && !err
      ensures Handled(reply) && GoesOn() && Lasts(reply) && taken == old(taken)
    {
      var cb, regular := TakeCallback(reply);
      if aborted { return true; }
      stop := GiveReply(cb, reply, regular);
      if stop { return; }
    }

    /** Handles a reply that is not a spontaneous push message. */
    method Answer(reply: Reply) returns (stop: bool)
      requires Steady() && !freed && !aborted && !err && RoleOf(reply) != Spontaneous
      requires IsPush(reply) ==> supportsPush
      modifies this
      ensures Steady() && old(issued) <= issued && stop == (freed || aborted || err)
      ensures Handled(reply) && (err && !freed ==> disconnecting) && GoesOn() && taken == old(taken)
      ensures Lasts(reply)
    {
      if replies == [] {
        if IsError(reply) {
          err := true;
          DisconnectNow();
          return true;
        }
        if !subscribed {
          aborted := true;
          return true;
        }
      }
      stop := Dispatch(reply);
    }

    /** One turn of the loop in redisProcessCallbacks(). */
    method ProcessReply(reply: Reply) returns (stop: bool)
      requires Steady() && !freed && !aborted && !err
      modifies this
      ensures Steady() && old(issued) <= issued && stop == (freed || aborted || err)
      ensures Handled(reply) && (err && !freed ==> disconnecting) && GoesOn() && taken == old(taken)
      ensures Lasts(reply)
    {
      if IsPush(reply) {
        supportsPush := true;
      }
      PushNoted(reply);
      if IsPush(reply) && !IsSubscribeReply(reply) {
        HandlePush(reply);
        stop := false;
      } else {
        stop := Answer(reply);
      }
    }

    /** That the server sends push messages does not change what this one is. */
    twostate lemma PushNoted(reply: Reply)
      requires replies == old(replies) && subReplies == old(subReplies) && subscribed == old(subscribed)
      requires channels == old(channels) && patterns == old(patterns)
      requires supportsPush == (old(supportsPush) || IsPush(reply))
      ensures RoleOf(reply) == old(RoleOf(reply)) && KeepsMode(reply) == old(KeepsMode(reply))
      ensures EndsMode(reply) == old(EndsMode(reply))
      ensures forall p :: DictAfter(reply, p) == old(DictAfter(reply, p))
    {
      PushRole(reply);
      RoleDecides(reply);
    }

    /** With the same dictionaries, the role decides what the reply does. */
    twostate lemma RoleDecides(reply: Reply)
      requires channels == old(channels) && patterns == old(patterns)
      requires replies == old(replies) && subscribed == old(subscribed)
      requires RoleOf(reply) == old(RoleOf(reply))
      ensures KeepsMode(reply) == old(KeepsMode(reply)) && EndsMode(reply) == old(EndsMode(reply))
      ensures forall p :: DictAfter(reply, p) == old(DictAfter(reply, p))
    {
      forall p ensures DictAfter(reply, p) == old(DictAfter(reply, p)) {
        assert DictOf(p) == old(DictOf(p));
      }
    }

    twostate lemma PushRole(reply: Reply)
      requires replies == old(replies) && subReplies == old(subReplies) && subscribed == old(subscribed)
      requires supportsPush == (old(supportsPush) || IsPush(reply))
      ensures RoleOf(reply) == old(RoleOf(reply))
    {
      assert IsMessage(reply) == old(IsMessage(reply));
    }

    /** A push message of its own accord. */
    method HandlePush(reply: Reply)
      requires Steady() && !freed && !aborted && !err && RoleOf(reply) == Spontaneous && supportsPush && IsPush(reply)
      modifies this
      ensures Steady() && old(issued) <= issued && !freed && !aborted && !err
      ensures Handled(reply) && GoesOn() && Lasts(reply) && taken == old(taken)
    {
      RunCallback(Callback(0, hasPushCallback), Some(reply), false);
    }

    /** The same turn, with a note of what the reply was. */
    method ProcessNext(reply: Reply) returns (stop: bool)
      requires Steady() && !freed && !aborted && !err && Traced()
      modifies this
      ensures Steady() && old(issued) <= issued && stop == (freed || aborted || err)
      ensures (err && !freed ==> disconnecting) && GoesOn() && Lasts(reply)
      ensures taken == old(taken) + [Taken(reply, old(RoleOf(reply)), old(Told(reply)))] && Traced()
      ensures err == old(RoleOf(reply)).Refusal? && aborted == old(IsUnreadable(reply))
    {
      ghost var t := Taken(reply, RoleOf(reply), Told(reply));
      stop := ProcessReply(reply);
      TraceGrows(t);
      Ending(reply);
      Note(t);
    }

    ghost method Note(t: Taken)
      requires inband == Regulars(taken + [t]) && Replied(notified) == Notes(taken + [t])
      modifies this`taken
      ensures taken == old(taken) + [t] && Traced()
    {
      taken := taken + [t];
    }

    twostate lemma TraceGrows(t: Taken)
      requires t == Taken(t.reply, old(RoleOf(t.reply)), old(Told(t.reply)))
      requires old(Traced()) && taken == old(taken) && Handled(t.reply)
      ensures inband == Regulars(taken + [t]) && Replied(notified) == Notes(taken + [t])
    {
      RegularsSnoc(taken, t);
      NotesSnoc(taken, t);
      RepliedMade(old(notified), Call(t.told, Some(t.reply)));
    }

    twostate lemma Ending(reply: Reply)
      requires Handled(reply)
      ensures err == old(RoleOf(reply)).Refusal? && aborted == old(IsUnreadable(reply))
    {
    }

    /** These replies were handled in order, all of them unless the context came to an end over one. */
    twostate predicate Took(input: seq<Reply>)
      reads this
    {
      TookSince(old(taken), input)
    }

    /** Without subscriptions each of them was an answer, or a push message of its own accord. */
    twostate predicate PlainAnswers()
      reads this
    {
      old(Plain()) ==> OnlyAnswers(taken, |old(taken)|, err || aborted)
    }

    /**
     * redisProcessCallbacks() on the replies that can be read now; `ok` is
     * false when reading the next one fails. A connection that is being closed
     * is closed once the last answer is in and the last command is out.
     */
    method ProcessCallbacks(input: seq<Reply>, ok: bool)
      requires Steady() && !freed && !aborted && !err && Traced()
      modifies this
      ensures Steady() && old(issued) <= issued && Traced() && Took(input) && PlainAnswers() && GoesOn()
      ensures !ok && !freed && !aborted ==> err && disconnecting
      ensures ok && !freed && !aborted && !err ==> !disconnecting || obuf > 0 || replies != []
    {
      var stop := ProcessAll(input);
      if stop { return; }
      if !ok {
        err := true;
        DisconnectNow();
      } else if disconnecting && obuf == 0 && replies == [] {
        DisconnectNow();
      }
    }

    /** The turns of the loop that have a reply. */
    method ProcessAll(input: seq<Reply>) returns (stop: bool)
      requires Steady() && !freed && !aborted && !err && Traced()
      modifies this
      ensures Steady() && old(issued) <= issued && Traced() && Took(input) && PlainAnswers() && GoesOn()
      ensures stop == (freed || aborted || err) && (err && !freed ==> disconnecting)
    {
      ghost var was, plain := taken, Plain();
      stop := false;
      var i := 0;
      while i < |input| && !stop
        invariant i <= |input| && Steady() && old(issued) <= issued && Traced() && TookSince(was, input[..i])
        invariant (plain ==> PlainSince(|was|)) && (stop || connected == old(connected))
        invariant stop == (freed || aborted || err) && (err && !freed ==> disconnecting)
      {
        stop := Turn(input, i, was, plain);
        i := i + 1;
      }
      assert input[..i] <= input && (i == |input| ==> input[..i] == input);
    }

    /** Since then, these replies were handled in order, as far as the context goes on. */
    ghost predicate TookSince(was: seq<Taken>, input: seq<Reply>)
      reads this
    {
      && was <= taken && Replies(taken) <= Replies(was) + input
      && (freed || aborted || err || Replies(taken) == Replies(was) + input)
    }

    ghost predicate PlainSince(k: nat)
      reads this
    {
      OnlyAnswers(taken, k, err || aborted) && (freed || aborted || err || Plain())
    }

    method Turn(input: seq<Reply>, i: nat, ghost was: seq<Taken>, ghost plain: bool) returns (stop: bool)
      requires Steady() && !freed && !aborted && !err && Traced()
      requires i < |input| && TookSince(was, input[..i]) && (plain ==> PlainSince(|was|))
      modifies this
      ensures Steady() && old(issued) <= issued && Traced() && TookSince(was, input[..i + 1])
      ensures (plain ==> PlainSince(|was|)) && (stop || connected == old(connected))
      ensures stop == (freed || aborted || err) && (err && !freed ==> disconnecting)
    {
      OneMore(Replies(was), input, i);
      ghost var before := taken;
      stop := ProcessNext(input[i]);
      assert Replies(taken) == Replies(before) + [input[i]];
    }

    /** Nothing to time out: idle, or a belated connect timeout. */
    predicate NotWaiting(commandTimeout: bool)
      reads this`connected, this`replies, this`subReplies
    {
      connected && ((replies == [] && subReplies == []) || !commandTimeout)
    }

    /**
     * redisAsyncHandleTimeout(): the waiting commands of the first list get no
     * reply; callbacks may still issue commands while it is emptied.
     */
    method HandleTimeout(commandTimeout: bool)
      requires Steady() && !freed
      modifies this
      ensures Steady() && old(issued) <= issued && Silent() && aborted == old(aborted)
      ensures old(NotWaiting(commandTimeout)) ==> !freed && err == old(err) && delivered == old(delivered)
      ensures GoesOn()
      ensures !old(NotWaiting(commandTimeout)) ==> err && replies == [] && (freed || disconnecting)
    {
      if connected && ((replies == [] && subReplies == []) || !commandTimeout) { return; }
      err := true;
      GiveNone();
      DisconnectNow();
    }

    /** The loop of redisAsyncHandleTimeout(). */
    method GiveNone()
      requires Settled() && !freed && err
      modifies this
      ensures Settled() && !freed && err && replies == []
      ensures old(issued) <= issued && Silent() && aborted == old(aborted)
    {
      while replies != []
        invariant Settled() && !freed && err && old(issued) <= issued
        invariant Silent() && aborted == old(aborted)
        decreases |script|, |replies|
      {
        RunnableSnoc(delivered, Call(replies[0], None));
        var cb := ShiftReplies(None);
        RunCallback(cb, None, true);
      }
    }

    /** redisAsyncRead() and redisAsyncWrite(): an earlier error makes the socket calls fail. */
    method HandleRead(input: seq<Reply>, ok: bool)
      requires Steady() && !freed && !aborted && Traced()
      modifies this
      ensures Steady() && old(issued) <= issued && Traced() && PlainAnswers() && GoesOn()
      ensures if old(err) then err && taken == old(taken) else Took(input)
      ensures (old(err) || !ok) && !freed && !aborted ==> err && disconnecting
    {
      if err {
        DisconnectNow();
      } else {
        ProcessCallbacks(input, ok);
      }
    }

    method HandleWrite(bytes: nat)
      requires Steady() && !freed
      modifies this
      ensures Steady() && issued == old(issued) && Silent() && aborted == old(aborted)
      ensures GoesOn() && err == old(err) && (err ==> freed || disconnecting)
      ensures !old(err) ==> !freed && delivered == old(delivered)
      ensures !old(err) ==> obuf == if bytes < old(obuf) then old(obuf) - bytes else 0
    {
      if err {
        DisconnectNow();
      } else {
        obuf := if bytes < obuf then obuf - bytes else 0;
      }
    }

    /** A failed connection attempt or a socket error. */
    method Fail()
      requires Steady() && !freed
      modifies this
      ensures Steady() && issued == old(issued) && Silent() && aborted == old(aborted)
      ensures err && freed == !old(noAutoFree) && (!freed ==> disconnecting)
    {
      err := true;
      DisconnectNow();
    }

    // ---- Whole runs ----

    /** The user calls in from outside any callback. */
    method Command(action: Action)
      requires Steady() && !freed && !aborted
      modifies this
      ensures Steady() && old(issued) <= issued && Silent()
      ensures !aborted && err == old(err) && (PlainAction(action) ==> GoesOn())
      ensures !freed ==> connected == old(connected) && script == old(script) && supportsPush == old(supportsPush)
      ensures forall p, n :: !freed && !Touches(action, p, n) ==> Lookup(DictOf(p), n) == Lookup(old(DictOf(p)), n)
      ensures !freed && old(subscribed) ==> subscribed && replies == old(replies)
      ensures match action {
                case Issue(cb, cmd) =>
                  && !freed && delivered == old(delivered) && Closing() == old(Closing())
                  && (!old(Closing()) && cmd.Subscribe? && cmd.names != [] ==>
                        && subscribed && replies == old(replies) && DictOf(!cmd.pattern) == old(DictOf(!cmd.pattern))
                        && DictOf(cmd.pattern) == Enter(old(DictOf(cmd.pattern)), cmd.names, cb, 1))
                  && issued == old(issued) + if !old(Closing()) && IsRegular(cmd) then [cb] else []
                case Disconnect => freed == (old(replies) == []) && issued == old(issued) && (!freed ==> Closing())
                case Free => freed && issued == old(issued)
              }
    {
      match action {
        case Issue(cb, cmd) => var _ := AsyncCommand(cb, cmd);
        case Disconnect => AsyncDisconnect();
        case Free => AsyncFree();
      }
    }

    /** The event is an error of the connection as far as it stands. */
    predicate IsFailure(event: Event)
      reads this`connected
    {
      if connected then event.ReadFailed? || event.WriteFailed? else event.ConnectFailed?
    }

    /** An event fires; replies are handled while the connection stands and no error has come up. */
    method Handle(event: Event)
      requires Steady() && !freed && !aborted && Traced()
      modifies this
      ensures Steady() && old(issued) <= issued && Traced() && PlainAnswers()
      ensures if old(err) then err && taken == old(taken) else Took(if old(connected) then InputOf(event) else [])
      ensures freed || aborted || err || connected == (old(connected) || event == Connected)
      ensures freed || aborted || err || (PlainEvent(event) && old(Plain()) ==> Plain())
      ensures event == Act(Free) ==> freed
      ensures event == Act(Disconnect) ==> freed == (old(replies) == []) && (!freed ==> Closing())
      ensures old(IsFailure(event)) ==> err && freed == !old(noAutoFree) && (!freed ==> disconnecting)
      ensures event.Read? && old(connected) && !event.ok ==> freed || aborted || (err && disconnecting)
      ensures event.Timeout? && !old(NotWaiting(event.commandTimeout)) ==> err && replies == [] && (freed || disconnecting)
    {
      assert Replies(taken) + [] == Replies(taken);
      match event {
        case Act(action) => Command(action);
        case Connected => connected := true;
        case ConnectFailed => if !connected { Fail(); }
        case Read(input, ok) => if connected { HandleRead(input, ok); }
        case ReadFailed => if connected { Fail(); }
        case Written(bytes) => if connected { HandleWrite(bytes); }
        case WriteFailed => if connected { Fail(); }
        case Timeout(commandTimeout) => HandleTimeout(commandTimeout);
      }
    }

    /** After these events: what was handled, and whether the connection stands. */
    ghost predicate Along(events: seq<Event>, start: bool)
      reads this
    {
      && Steady() && Traced() && Replies(taken) <= Heard(events, start)
      && (freed || aborted || err
          || (Replies(taken) == Heard(events, start) && connected == (start || Connected in events)))
    }

    /**
     * Any sequence of events, whatever the user code inside callbacks does:
     * callbacks are called in the order in which their commands were issued
     * and none twice; the replies read are handled in order, and the k-th
     * callback gets the k-th of those that are answers; only after an error or
     * the end does one get no reply; and all have been called once the context
     * is freed. Without subscriptions all replies are answers, save push
     * messages of their own accord and one over which the run ends.
     */
    method Run(events: seq<Event>)
      requires Steady() && !freed && !aborted && !err && taken == [] && Traced()
      modifies this
      ensures issued == Callbacks(delivered) + Pending() && ran == Runnable(delivered)
      ensures Paired(delivered, inband) && inband == Regulars(taken) && Replied(notified) == Notes(taken)
      ensures Replies(taken) <= Heard(events, old(connected))
      ensures Replies(taken) == Heard(events, old(connected)) || freed || aborted || err
      ensures old(Plain()) && PlainEvents(events) ==> OnlyAnswers(taken, 0, err || aborted)
      ensures |inband| < |delivered| ==> err || freed
      ensures !subscribed ==> subReplies == []
      ensures freed ==> Pending() == []
    {
      ghost var start, plain := connected, Plain() && PlainEvents(events);
      var i := 0;
      while i < |events| && !freed && !aborted
        invariant i <= |events| && Along(events[..i], start) && (plain ==> PlainSince(0))
      {
        assert events[..i + 1] == events[..i] + [events[i]];
        Step(events[i], events[..i], start);
        i := i + 1;
      }
      RunEnds(events, i, start);
    }

    /** What has come of the events until the end is what comes of all of them. */
    lemma RunEnds(events: seq<Event>, n: nat, start: bool)
      requires n <= |events| && Along(events[..n], start) && (n == |events| || freed || aborted)
      ensures Replies(taken) <= Heard(events, start)
      ensures Replies(taken) == Heard(events, start) || freed || aborted || err
    {
      assert events[..|events|] == events;
      HeardGrows(events, n, start);
    }

    method Step(event: Event, ghost before: seq<Event>, ghost start: bool)
      requires !freed && !aborted && Along(before, start)
      modifies this
      ensures Along(before + [event], start)
      ensures old(PlainSince(0)) && PlainEvent(event) ==> PlainSince(0)
    {
      assert (before + [event])[..|before|] == before;
      Handle(event);
    }
  }
}
