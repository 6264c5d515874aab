/**
 * What a request for claims brings: every operational daemon answers it or has
 * a retry due, and so a newcomer that has heard the answers knows the address
 * of every settled daemon, provided that all claims are for real addresses.
 */
module AddressAnswers {
  import opened AddressClaim
  import opened AddressTable
  import opened AddressClash

  // ---- Every request is answered ----

  /** The position of a daemon's last claim, whatever the address, -1 for none. */
  function LastOwn(d: Daemon, log: seq<Frame>): int {
    LastClaim(log, d.name, 0, |log|)
  }

  /** An operational daemon has claimed since every request that it received, or a retry is due. */
  ghost predicate Replied(d: Daemon, log: seq<Frame>) {
    d.running && d.state == Operational && !d.alarm ==>
      forall q :: d.since <= q < d.rx && q < |log| && log[q] == Request ==> q < LastOwn(d, log)
  }

  ghost predicate RepliedInv(s: System) {
    forall i :: 0 <= i < |s.daemons| ==> s.daemons[i].rx <= |s.log| && Replied(s.daemons[i], s.log)
  }

  lemma {:induction false} LastClaimPrefix(log: seq<Frame>, more: seq<Frame>, name: nat, from: nat, k: nat)
    requires from <= k <= |log|
    ensures LastClaim(log + more, name, from, k) == LastClaim(log, name, from, k)
    decreases k - from
  {
    if k > from {
      LastClaimPrefix(log, more, name, from, k - 1);
    }
  }

  /** Frames more on the bus: the last claim is the same, or comes among them. */
  lemma LastOwnGrows(d: Daemon, log: seq<Frame>, f: Frame)
    ensures LastOwn(d, log + [f]) == if f.Claim? && f.name == d.name then |log| else LastOwn(d, log)
  {
    LastClaimPrefix(log, [f], d.name, 0, |log|);
  }

  lemma RepliedGrows(d: Daemon, log: seq<Frame>, sent: seq<Frame>)
    requires d.rx <= |log| && Replied(d, log) && |sent| <= 1
    ensures Replied(d, log + sent)
  {
    if sent == [] {
      assert log + sent == log;
    } else {
      assert sent == [sent[0]];
      LastOwnGrows(d, log, sent[0]);
    }
  }

  /** A claim of its own settles everything received before. */
  lemma ClaimReplies(d: Daemon, log: seq<Frame>, f: Frame)
    requires d.rx <= |log| && f.Claim? && f.name == d.name
    ensures Replied(d, log + [f])
  {
    LastOwnGrows(d, log, f);
  }

  /** A step after which the daemon is not operational without a retry due, unless it was before or has claimed. */
  lemma StepReplies(d: Daemon, e: Effect, log: seq<Frame>)
    requires e.d.rx <= |log| && |e.sent| <= 1 && e.d.name == d.name
    requires e.sent != [] ==> e.sent[0] == Request || (e.sent[0].Claim? && e.sent[0].name == d.name)
    requires e.sent == [] || e.sent[0] == Request ==> Replied(e.d, log)
    ensures Replied(e.d, log + e.sent)
  {
    if e.sent != [] && e.sent[0].Claim? {
      assert e.sent == [e.sent[0]];
      ClaimReplies(e.d, log, e.sent[0]);
    } else {
      RepliedGrows(e.d, log, e.sent);
    }
  }

  lemma WakeReplies(d: Daemon, log: seq<Frame>, ok: bool)
    requires WellFormed(d) && d.rx <= |log| && Replied(d, log)
    ensures Wake(d, ok).d.rx <= |log| && Replied(Wake(d, ok).d, log + Wake(d, ok).sent)
  {
    WakeSends(d, ok);
    StepReplies(d, Wake(d, ok), log);
  }

  lemma ReceiveReplies(d: Daemon, log: seq<Frame>, ok: bool, e: Effect)
    requires WellFormed(d) && d.rx < |log| && Replied(d, log)
    requires e == Receive(d.(rx := d.rx + 1), log[d.rx], ok)
    ensures e.d.rx <= |log| && Replied(e.d, log + e.sent)
  {
    ReceiveShape(d.(rx := d.rx + 1), log[d.rx], ok);
    ReceiveSends(d.(rx := d.rx + 1), log[d.rx], ok);
    StepReplies(d, e, log);
  }

  lemma ApplyReplies(s: System, i: nat, e: Effect)
    requires RepliedInv(s) && i < |s.daemons| && |e.sent| <= 1
    requires e.d.rx <= |s.log| && Replied(e.d, s.log + e.sent)
    ensures RepliedInv(Apply(s, i, e))
  {
    forall j | 0 <= j < |s.daemons|
      ensures Apply(s, i, e).daemons[j].rx <= |s.log + e.sent| && Replied(Apply(s, i, e).daemons[j], s.log + e.sent)
    {
      if j != i {
        RepliedGrows(s.daemons[j], s.log, e.sent);
      }
    }
  }

  lemma NextReplies(s: System, step: Step, limit: nat)
    requires RepliedInv(s) && SystemOk(s) && Enabled(s, step, limit)
    ensures RepliedInv(Next(s, step, limit))
  {
    match step
    case Open(i) =>
    case Awake(i, ok) =>
      WakeReplies(s.daemons[i], s.log, ok);
      WakeSends(s.daemons[i], ok);
      ApplyReplies(s, i, Wake(s.daemons[i], ok));
    case Deliver(i, ok) =>
      var d := s.daemons[i];
      var e := Receive(d.(rx := d.rx + 1), s.log[d.rx], ok);
      ReceiveReplies(d, s.log, ok, e);
      ReceiveShape(d.(rx := d.rx + 1), s.log[d.rx], ok);
      ApplyReplies(s, i, e);
    case Terminate(i, ok) => ApplyReplies(s, i, Leave(s.daemons[i], ok));
    case Foreign(f) =>
      forall j | 0 <= j < |s.daemons| ensures Replied(s.daemons[j], s.log + [f]) {
        RepliedGrows(s.daemons[j], s.log, [f]);
      }
  }

  lemma {:induction false} RunReplies(s: System, steps: seq<Step>, limit: nat, t: System)
    requires RepliedInv(s) && Reaches(s, steps, limit, t)
    ensures RepliedInv(t)
    decreases |steps|
  {
    if steps != [] {
      NextReplies(s, steps[0], limit);
      RunReplies(Next(s, steps[0], limit), steps[1..], limit, t);
    }
  }

  /**
   * Over every run: an operational daemon that has received a request has
   * claimed since, or a retry is due.
   */
  lemma RequestsAnswered(s: System, steps: seq<Step>, limit: nat, t: System, i: nat, q: nat)
    requires Start(s) && Reaches(s, steps, limit, t)
    requires i < |t.daemons| && t.daemons[i].running && t.daemons[i].state == Operational
    requires t.daemons[i].since <= q < t.daemons[i].rx && q < |t.log| && t.log[q] == Request
    ensures t.daemons[i].alarm || q < LastOwn(t.daemons[i], t.log)
  {
    RunReplies(s, steps, limit, t);
    assert Replied(t.daemons[i], t.log);
  }

  // ---- All claims are for real addresses ----

  /** The daemons start with addresses below `first`. */
  ghost predicate StartBelow(s: System, first: nat) {
    Start(s) && forall i :: 0 <= i < |s.daemons| ==> s.daemons[i].current < first
  }

  predicate IsReal(f: Frame, name: nat) {
    f.Claim? && f.name == name ==> f.addr < IDLE_ADDR
  }

  /** A running daemon has claimed real addresses only, and will. */
  ghost predicate RealDaemon(d: Daemon, log: seq<Frame>) {
    d.running ==>
      && d.current < IDLE_ADDR && (d.alarm && d.state == Operational ==> d.bound < IDLE_ADDR)
      && (d.state == Closed ==> !d.alarm)
      && forall k :: 0 <= k < |log| ==> IsReal(log[k], d.name)
  }

  ghost predicate RealCommands(log: seq<Frame>) {
    forall k :: 0 <= k < |log| && log[k].Commanded? ==> log[k].addr < IDLE_ADDR
  }

  ghost predicate DistinctNames(s: System) {
    forall i, j :: 0 <= i < |s.daemons| && 0 <= j < |s.daemons| && i != j ==> s.daemons[i].name != s.daemons[j].name
  }

  ghost predicate RealDaemons(s: System) {
    forall i :: 0 <= i < |s.daemons| ==> WellFormed(s.daemons[i]) && RealDaemon(s.daemons[i], s.log)
  }

  ghost predicate RealInv(s: System) {
    RealCommands(s.log) && DistinctNames(s) && RealDaemons(s)
  }

  lemma RealGrows(d: Daemon, log: seq<Frame>, sent: seq<Frame>)
    requires RealDaemon(d, log) && |sent| <= 1 && (d.running && sent != [] ==> IsReal(sent[0], d.name))
    ensures RealDaemon(d, log + sent)
  {
  }

  lemma WakeReal(d: Daemon, log: seq<Frame>, ok: bool)
    requires WellFormed(d) && RealDaemon(d, log) && d.running
    ensures WellFormed(Wake(d, ok).d) && RealDaemon(Wake(d, ok).d, log + Wake(d, ok).sent)
  {
    ChosenIsRealOrIdle(d, d.current);
    WakeSends(d, ok);
    RealGrows(Wake(d, ok).d, log, Wake(d, ok).sent);
  }

  lemma ReceiveReal(d: Daemon, log: seq<Frame>, f: Frame, ok: bool)
    requires WellFormed(d) && RealDaemon(d, log) && d.running && (f.Commanded? ==> f.addr < IDLE_ADDR) && d.state != Closed
    ensures WellFormed(Receive(d, f, ok).d) && RealDaemon(Receive(d, f, ok).d, log + Receive(d, f, ok).sent)
  {
    var e := Receive(d, f, ok);
    ReceiveShape(d, f, ok);
    ReceiveSends(d, f, ok);
    if f.Claim? {
      ChosenIsRealOrIdle(d.(names := Record(d.names, f)), f.addr);
    }
    RealGrows(e.d, log, e.sent);
  }

  lemma ApplyReal(s: System, i: nat, e: Effect)
    requires RealInv(s) && i < |s.daemons| && e.d.name == s.daemons[i].name
    requires WellFormed(e.d) && RealDaemon(e.d, s.log + e.sent) && |e.sent| <= 1
    requires e.sent != [] ==> e.sent[0] == Request || (e.sent[0].Claim? && e.sent[0].name == e.d.name)
    ensures RealInv(Apply(s, i, e))
  {
    forall j | 0 <= j < |s.daemons| ensures RealDaemon(Apply(s, i, e).daemons[j], s.log + e.sent) {
      if j != i {
        assert s.daemons[j].name != e.d.name;
        RealGrows(s.daemons[j], s.log, e.sent);
      }
    }
  }

  lemma DeliverReal(s: System, i: nat, ok: bool, d: Daemon, f: Frame, e: Effect)
    requires RealInv(s) && i < |s.daemons| && s.daemons[i].running && s.daemons[i].state != Closed
    requires d == s.daemons[i].(rx := s.daemons[i].rx + 1)
    requires (f.Commanded? ==> f.addr < IDLE_ADDR) && e == Receive(d, f, ok)
    ensures RealInv(Apply(s, i, e))
  {
    ReceiveReal(d, s.log, f, ok);
    ReceiveShape(d, f, ok);
    ReceiveSends(d, f, ok);
    ApplyReal(s, i, e);
  }

  lemma AwakeReal(s: System, i: nat, ok: bool, d: Daemon)
    requires RealInv(s) && i < |s.daemons| && d == s.daemons[i] && d.running
    ensures RealInv(Apply(s, i, Wake(d, ok)))
  {
    WakeReal(d, s.log, ok);
    WakeSends(d, ok);
    ApplyReal(s, i, Wake(d, ok));
  }

  lemma TerminateReal(s: System, i: nat, ok: bool)
    requires RealInv(s) && i < |s.daemons|
    ensures RealInv(Apply(s, i, Leave(s.daemons[i], ok)))
  {
    ApplyReal(s, i, Leave(s.daemons[i], ok));
  }

  lemma ForeignReal(s: System, f: Frame)
    requires RealInv(s) && (f.Commanded? ==> f.addr < IDLE_ADDR)
    requires f.Claim? ==> forall i :: 0 <= i < |s.daemons| ==> s.daemons[i].name != f.name
    ensures RealInv(s.(log := s.log + [f]))
  {
    forall j | 0 <= j < |s.daemons| ensures RealDaemon(s.daemons[j], s.log + [f]) {
      RealGrows(s.daemons[j], s.log, [f]);
    }
  }

  lemma OpenReal(s: System, i: nat)
    requires RealInv(s) && i < |s.daemons| && s.daemons[i].state == Closed
    ensures RealInv(s.(daemons := s.daemons[i := s.daemons[i].(state := Initial, since := |s.log|, rx := |s.log|)]))
  {
  }

  lemma NextReal(s: System, step: Step, limit: nat, t: System)
    requires RealInv(s) && SystemOk(s) && Enabled(s, step, limit) && limit <= IDLE_ADDR && t == Next(s, step, limit)
    ensures RealInv(t)
  {
    match step
    case Open(i) => OpenReal(s, i);
    case Awake(i, ok) => AwakeReal(s, i, ok, s.daemons[i]);
    case Deliver(i, ok) =>
      var d := s.daemons[i].(rx := s.daemons[i].rx + 1);
      DeliverReal(s, i, ok, d, s.log[s.daemons[i].rx], Receive(d, s.log[s.daemons[i].rx], ok));
    case Terminate(i, ok) => TerminateReal(s, i, ok);
    case Foreign(f) => ForeignReal(s, f);
  }

  lemma {:induction false} RunReal(s: System, steps: seq<Step>, limit: nat, t: System)
    requires RealInv(s) && Reaches(s, steps, limit, t) && limit <= IDLE_ADDR
    ensures RealInv(t)
    decreases |steps|
  {
    if steps != [] {
      NextReal(s, steps[0], limit, Next(s, steps[0], limit));
      RunReal(Next(s, steps[0], limit), steps[1..], limit, t);
    }
  }

  // ---- What a newcomer knows ----

  /**
   * A settled operational daemon j has received a request that daemon i sent
   * or received, and no claim is in flight to daemon i any more.
   */
  ghost predicate HasHeard(t: System, i: nat, j: nat, q: nat) {
    && i < |t.daemons| && i != j && Settled(t, j) && t.daemons[j].state == Operational && t.daemons[j].name != 0
    && t.daemons[i].state != Closed && q < |t.log| && t.log[q] == Request
    && t.daemons[i].since <= q && t.daemons[j].since <= q < t.daemons[j].rx
    && forall k :: t.daemons[i].rx <= k < |t.log| ==> !t.log[k].Claim?
  }

  ghost predicate Knows(t: System, i: nat, j: nat) {
    && i < |t.daemons| && j < |t.daemons| && |t.daemons[i].names| == IDLE_ADDR
    && t.daemons[j].current < IDLE_ADDR && t.daemons[i].names[t.daemons[j].current] == t.daemons[j].name
  }

  /** The last claim of all is the last one received, and the last one since the newcomer came. */
  lemma {:induction false} LastClaimWithin(log: seq<Frame>, name: nat, from: nat, k: nat)
    requires from <= k <= |log| && LastClaim(log, name, 0, |log|) < k && from <= LastClaim(log, name, 0, |log|)
    ensures LastClaim(log, name, from, k) == LastClaim(log, name, 0, |log|)
  {
    var p, r := LastClaim(log, name, 0, |log|), LastClaim(log, name, from, k);
    assert log[p].Claim? && log[p].name == name;
  }

  /** The last claim is for a real address, so it is the address that the daemon holds. */
  lemma LastIsHeld(t: System, limit: nat, j: nat)
    requires Inv(t, limit) && RealInv(t) && Settled(t, j) && LastOwn(t.daemons[j], t.log) >= 0
    ensures var d := t.daemons[j];
      && LastOwn(d, t.log) == LastHeld(t.log, d.name, |t.log|) < d.rx && d.current < IDLE_ADDR
      && t.log[LastOwn(d, t.log)] == Claim(d.name, d.current)
  {
    var d := t.daemons[j];
    var p, h := LastOwn(d, t.log), LastHeld(t.log, d.name, |t.log|);
    assert RealDaemon(d, t.log) && IsReal(t.log[p], d.name) && Holds(t.log[p], d.name);
    SettledHolds(t, limit, j);
  }

  /** Nobody has claimed a settled daemon's address since it did. */
  lemma NotTaken(t: System, limit: nat, j: nat, k: nat)
    requires Inv(t, limit) && RealInv(t) && limit <= IDLE_ADDR && Settled(t, j) && LastOwn(t.daemons[j], t.log) >= 0
    requires k <= |t.log|
    ensures !TakenSince(t.log, LastOwn(t.daemons[j], t.log), k, t.daemons[j].current)
  {
    var d := t.daemons[j];
    var p := LastOwn(d, t.log);
    LastIsHeld(t, limit, j);
    assert DaemonInv(d, t.log, limit);
    if TakenSince(t.log, p, k, d.current) {
      var b :| p < b < k && t.log[b].Claim? && t.log[b].addr == d.current;
      assert Contests(t.log, p, b);
    }
  }

  /**
   * Over every run in which daemons start with real addresses and commands
   * name real ones: once it has heard the answers to a request, a daemon knows
   * the address of every settled operational daemon.
   */
  lemma NewcomerKnows(s: System, steps: seq<Step>, limit: nat, t: System, i: nat, j: nat, q: nat)
    requires StartBelow(s, IDLE_ADDR) && limit <= IDLE_ADDR && Reaches(s, steps, limit, t) && HasHeard(t, i, j, q)
    ensures Knows(t, i, j)
  {
    var n, d := t.daemons[i], t.daemons[j];
    RequestsAnswered(s, steps, limit, t, j, q);
    StartInv(s, limit);
    RunKeeps(s, steps, limit, t);
    RunReal(s, steps, limit, t);
    LastIsHeld(t, limit, j);
    NotTaken(t, limit, j, n.rx);
    assert DaemonInv(n, t.log, limit);
    LastClaimWithin(t.log, d.name, n.since, n.rx);
    TablesShowOwners(s, steps, limit, t, i, d.current, d.name);
  }

  // ---- And what it may not know ----

  /** Over every run, a daemon that has heard the answers knows the address of every settled one. */
  ghost predicate AlwaysKnown(limit: nat, first: nat) {
    forall s, steps, t, i: nat, j: nat, q: nat ::
      StartBelow(s, first) && Reaches(s, steps, limit, t) && HasHeard(t, i, j, q) ==> Knows(t, i, j)
  }

  /** A daemon that may use any address but 0, and the address it first has. */
  function Starter(name: nat, first: nat): Daemon {
    Daemon(name, seq(IDLE_ADDR, i => i != 0), seq(IDLE_ADDR, i => 0), first, NO_ADDR, Closed, false, true, 0, 0, false)
  }

  /** It has nobody in its table, and address 1 is the first that it may use. */
  predicate Alone(d: Daemon) {
    && WellFormed(d) && !d.use[0] && d.use[1] && forall k :: 0 <= k < IDLE_ADDR ==> d.names[k] == 0
  }

  /** Daemon 0 of NAME 1, and daemon 1 of NAME 2, not yet started. */
  ghost predicate Pair(s: System, limit: nat, t: System) {
    Reachable(s, limit, t) && SystemOk(t) && Two(t)
  }

  /** Daemon 0 has sent its request and is about to choose an address. */
  lemma AboutToClaim(limit: nat, first: nat) returns (s: System, t: System)
    ensures StartBelow(s, first + 1) && Pair(s, limit, t) && t.log == [Request]
    ensures Looks(t.daemons[0], 1, first, ReqPending, NO_ADDR, true, 1, false) && Alone(t.daemons[0])
    ensures t.daemons[0].since == 0 && t.daemons[1] == Starter(2, 0)
  {
    s := System([Starter(1, first), Starter(2, 0)], []);
    assert Reaches(s, [], limit, s);
    t := Go(s, limit, s, Open(0));
    t := Go(s, limit, t, Awake(0, true));
    assert t.log == [Request];
    t := Go(s, limit, t, Deliver(0, true));
  }

  /** It claims address 1. */
  lemma Claims1(s: System, limit: nat, t0: System, first: nat) returns (t: System)
    requires Pair(s, limit, t0) && first in {0, IDLE_ADDR}
    requires Looks(t0.daemons[0], 1, first, ReqPending, NO_ADDR, true, 1, false) && Alone(t0.daemons[0])
    ensures Pair(s, limit, t) && t.daemons[1] == t0.daemons[1] && t.log == t0.log + [Claim(1, 1)]
    ensures Looks(t.daemons[0], 1, first, Operational, 1, false, 1, false) && t.daemons[0].since == t0.daemons[0].since
  {
    assert !Free(t0.daemons[0], 0) && Free(t0.daemons[0], 1);
    assert FirstFree(t0.daemons[0], 0) == FirstFree(t0.daemons[0], 1) == 1;
    t := Go(s, limit, t0, Awake(0, true));
  }

  /** Daemon 0 receives a frame. */
  lemma Receives(s: System, limit: nat, t0: System) returns (t: System)
    requires Pair(s, limit, t0) && t0.daemons[0].rx < |t0.log|
    requires t0.daemons[0].running && t0.daemons[0].state == Operational
    ensures Pair(s, limit, t) && t.daemons[1] == t0.daemons[1]
    ensures var d := t0.daemons[0];
      var e := Receive(d.(rx := d.rx + 1), t0.log[d.rx], true);
      t.daemons[0] == e.d && t.log == t0.log + e.sent
  {
    t := Go(s, limit, t0, Deliver(0, true));
  }

  /** Daemon 1 opens its socket and sends its request. */
  lemma Asks(s: System, limit: nat, t0: System) returns (t: System)
    requires Pair(s, limit, t0) && t0.daemons[1] == Starter(2, 0)
    ensures Pair(s, limit, t) && t.daemons[0] == t0.daemons[0] && t.log == t0.log + [Request]
    ensures t.daemons[1] == Starter(2, 0).(state := ReqSent, since := |t0.log|, rx := |t0.log|)
  {
    t := Go(s, limit, t0, Open(1));
    t := Go(s, limit, t, Awake(1, true));
  }

  /** Daemon 1 as far as it matters: waiting for answers. */
  predicate Waits(d: Daemon, since: nat, rx: nat) {
    WellFormed(d) && d.name == 2 && d.current == 0 && d.running && d.state == ReqPending && d.since == since && d.rx == rx
  }

  /** It hears its own request. */
  lemma HearsRequest(s: System, limit: nat, t0: System) returns (t: System)
    requires Pair(s, limit, t0) && t0.daemons[1].rx < |t0.log| && t0.log[t0.daemons[1].rx] == Request
    requires t0.daemons[1] == Starter(2, 0).(state := ReqSent, since := t0.daemons[1].since, rx := t0.daemons[1].since)
    ensures Pair(s, limit, t) && t.daemons[0] == t0.daemons[0] && t.log == t0.log
    ensures Waits(t.daemons[1], t0.daemons[1].since, t0.daemons[1].since + 1)
  {
    t := Go(s, limit, t0, Deliver(1, true));
  }

  /** It hears something of daemon 0. */
  lemma HearsOther(s: System, limit: nat, t0: System, since: nat, rx: nat) returns (t: System)
    requires Pair(s, limit, t0) && Waits(t0.daemons[1], since, rx) && rx < |t0.log|
    requires t0.log[rx] in {Claim(1, 1), Claim(1, IDLE_ADDR), Commanded(1, IDLE_ADDR)}
    ensures Pair(s, limit, t) && t.daemons[0] == t0.daemons[0] && t.log == t0.log
    ensures Waits(t.daemons[1], since, rx + 1)
  {
    t := Go(s, limit, t0, Deliver(1, true));
  }

  /** What the table of daemon 1 shows is that the last claim of daemon 0 was for no address. */
  lemma Forgotten(s: System, limit: nat, t: System, since: nat, p: nat)
    requires Start(s) && Pair(s, limit, t) && Waits(t.daemons[1], since, |t.log|) && since <= p == |t.log| - 1
    requires t.log[p] == Claim(1, IDLE_ADDR) && t.daemons[0].name == 1 && t.daemons[0].current == 1
    ensures !Knows(t, 1, 0)
  {
    var steps :| Reaches(s, steps, limit, t);
    TablesShowOwners(s, steps, limit, t, 1, 1, 1);
    assert LastClaim(t.log, 1, since, |t.log|) == p;
  }

  /**
   * A request comes between the claim of a daemon that started without an
   * address and its receipt: the daemon answers with the address that it does
   * not have yet, and its claim is forgotten.
   */
  lemma Raced(limit: nat) returns (s: System, t: System)
    ensures StartBelow(s, IDLE_ADDR + 1) && Reachable(s, limit, t) && HasHeard(t, 1, 0, 1) && !Knows(t, 1, 0)
  {
    s, t := AboutToClaim(limit, IDLE_ADDR);
    t := Asks(s, limit, t);
    t := Claims1(s, limit, t, IDLE_ADDR);
    t := Receives(s, limit, t);
    assert t.log == [Request, Request, Claim(1, 1), Claim(1, IDLE_ADDR)];
    t := Receives(s, limit, t);
    t := Receives(s, limit, t);
    t := HearsRequest(s, limit, t);
    t := HearsOther(s, limit, t, 1, 2);
    t := HearsOther(s, limit, t, 1, 3);
    Forgotten(s, limit, t, 1, 3);
  }

  /** A daemon is commanded to an address that no node can hold: it announces that, and stays where it is. */
  lemma SentAway(limit: nat) returns (s: System, t: System)
    requires limit > IDLE_ADDR
    ensures StartBelow(s, 1) && Reachable(s, limit, t) && HasHeard(t, 1, 0, 2) && !Knows(t, 1, 0)
  {
    s, t := AboutToClaim(limit, 0);
    t := Claims1(s, limit, t, 0);
    t := Receives(s, limit, t);
    t := Asks(s, limit, t);
    t := Receives(s, limit, t);
    t := Go(s, limit, t, Foreign(Commanded(1, IDLE_ADDR)));
    t := Receives(s, limit, t);
    t := Receives(s, limit, t);
    assert t.log == [Request, Claim(1, 1), Request, Claim(1, 1), Commanded(1, IDLE_ADDR), Claim(1, IDLE_ADDR)];
    t := Receives(s, limit, t);
    t := HearsRequest(s, limit, t);
    t := HearsOther(s, limit, t, 2, 3);
    t := HearsOther(s, limit, t, 2, 4);
    t := HearsOther(s, limit, t, 2, 5);
    Forgotten(s, limit, t, 2, 5);
  }

  /**
   * Answers always tell the addresses of the settled daemons if and only if
   * daemons start with real addresses and commands name real ones.
   */
  lemma KnownExactly(limit: nat, first: nat)
    requires first > 0
    ensures AlwaysKnown(limit, first) <==> limit <= IDLE_ADDR && first <= IDLE_ADDR
  {
    if limit > IDLE_ADDR {
      var s, t := SentAway(limit);
      var steps :| Reaches(s, steps, limit, t);
    } else if first > IDLE_ADDR {
      var s, t := Raced(limit);
      var steps :| Reaches(s, steps, limit, t);
    } else {
      forall s, steps, t, i: nat, j: nat, q: nat
        | StartBelow(s, first) && Reaches(s, steps, limit, t) && HasHeard(t, i, j, q)
        ensures Knows(t, i, j)
      {
        NewcomerKnows(s, steps, limit, t, i, j, q);
      }
    }
  }

  // ---- A holder that nobody contests keeps its address ----

  /** From position `from` on nobody else claims address x, and no command is for that NAME. */
  ghost predicate Unchallenged(log: seq<Frame>, from: nat, name: nat, x: nat) {
    forall k :: from <= k < |log| ==>
      !(log[k].Claim? && log[k].name != name && log[k].addr == x) && !(log[k].Commanded? && log[k].name == name)
  }

  /** The daemon holds x, and all it has claimed from `from` on is x. */
  ghost predicate Keeps(d: Daemon, log: seq<Frame>, from: nat, x: nat) {
    && WellFormed(d) && d.state == Operational && d.current == x < IDLE_ADDR && (d.alarm ==> d.bound == x)
    && from <= d.rx <= |log|
    && forall k :: from <= k < |log| && log[k].Claim? && log[k].name == d.name ==> log[k].addr == x
  }

  lemma KeepsGrows(d: Daemon, log: seq<Frame>, sent: seq<Frame>, from: nat, x: nat)
    requires Keeps(d, log, from, x) && |sent| <= 1
    requires sent != [] && sent[0].Claim? && sent[0].name == d.name ==> sent[0].addr == x
    ensures Keeps(d, log + sent, from, x)
  {
  }

  lemma NextKeepsAddress(s: System, step: Step, limit: nat, i: nat, from: nat, x: nat, t: System)
    requires SystemOk(s) && Enabled(s, step, limit) && t == Next(s, step, limit)
    requires i < |s.daemons| && Keeps(s.daemons[i], s.log, from, x)
    requires Unchallenged(s.log, from, s.daemons[i].name, x)
    requires forall j :: 0 <= j < |s.daemons| && j != i ==> s.daemons[j].name != s.daemons[i].name
    ensures |t.daemons| == |s.daemons| && t.daemons[i].name == s.daemons[i].name
    ensures t.daemons[i].running ==> Keeps(t.daemons[i], t.log, from, x)
  {
    var d := s.daemons[i];
    match step
    case Open(_) =>
    case Awake(j, ok) => AwakeKeepsAddress(s, j, ok, i, from, x);
    case Deliver(j, ok) =>
      var d' := s.daemons[j].(rx := s.daemons[j].rx + 1);
      DeliverKeepsAddress(s, j, ok, i, from, x, d', Receive(d', s.log[s.daemons[j].rx], ok));
    case Terminate(j, ok) =>
      if j != i {
        KeepsGrows(d, s.log, Leave(s.daemons[j], ok).sent, from, x);
      }
    case Foreign(f) => KeepsGrows(d, s.log, [f], from, x);
  }

  lemma DeliverKeepsAddress(s: System, j: nat, ok: bool, i: nat, from: nat, x: nat, d: Daemon, e: Effect)
    requires i < |s.daemons| && j < |s.daemons| && Keeps(s.daemons[i], s.log, from, x) && WellFormed(d)
    requires s.daemons[j].rx < |s.log| && d == s.daemons[j].(rx := s.daemons[j].rx + 1)
    requires e == Receive(d, s.log[s.daemons[j].rx], ok)
    requires Unchallenged(s.log, from, s.daemons[i].name, x)
    requires j != i ==> s.daemons[j].name != s.daemons[i].name
    ensures e.d.name == d.name
    ensures var k := if j == i then e.d else s.daemons[i]; k.running ==> Keeps(k, s.log + e.sent, from, x)
  {
    ReceiveShape(d, s.log[s.daemons[j].rx], ok);
    ReceiveSends(d, s.log[s.daemons[j].rx], ok);
    KeepsGrows(if j == i then e.d else s.daemons[i], s.log, e.sent, from, x);
  }

  lemma AwakeKeepsAddress(s: System, j: nat, ok: bool, i: nat, from: nat, x: nat)
    requires i < |s.daemons| && j < |s.daemons| && Keeps(s.daemons[i], s.log, from, x) && WellFormed(s.daemons[j])
    requires j != i ==> s.daemons[j].name != s.daemons[i].name
    ensures var e := Wake(s.daemons[j], ok);
      && e.d.name == s.daemons[j].name && Keeps(if j == i then e.d else s.daemons[i], s.log + e.sent, from, x)
  {
    var e := Wake(s.daemons[j], ok);
    WakeSends(s.daemons[j], ok);
    KeepsGrows(if j == i then e.d else s.daemons[i], s.log, e.sent, from, x);
  }

  /** A step adds to the log, keeps every NAME, and brings no daemon back that has left. */
  lemma NextFrame(s: System, step: Step, limit: nat, i: nat)
    requires SystemOk(s) && Enabled(s, step, limit) && i < |s.daemons|
    ensures var t := Next(s, step, limit);
      && s.log <= t.log && |t.daemons| == |s.daemons| && t.daemons[i].name == s.daemons[i].name
      && (t.daemons[i].running ==> s.daemons[i].running)
  {
    match step
    case Deliver(j, ok) => ReceiveShape(s.daemons[j].(rx := s.daemons[j].rx + 1), s.log[s.daemons[j].rx], ok);
    case Awake(j, ok) => WakeSends(s.daemons[j], ok);
    case _ =>
  }

  lemma {:induction false} LogGrows(s: System, steps: seq<Step>, limit: nat, t: System)
    requires Reaches(s, steps, limit, t)
    ensures s.log <= t.log && |t.daemons| == |s.daemons|
    decreases |steps|
  {
    if steps != [] {
      var u := Next(s, steps[0], limit);
      LogGrows(u, steps[1..], limit, t);
      if s.daemons != [] {
        NextFrame(s, steps[0], limit, 0);
      }
    }
  }

  /**
   * As long as nobody else claims its address and no command moves it, a daemon
   * keeps its address, and announces no other, over any steps.
   */
  lemma {:induction false} HolderKeeps(s: System, steps: seq<Step>, limit: nat, t: System, i: nat, from: nat, x: nat)
    requires Reaches(s, steps, limit, t) && DistinctNames(s) && i < |s.daemons|
    requires s.daemons[i].running ==> Keeps(s.daemons[i], s.log, from, x)
    requires Unchallenged(t.log, from, s.daemons[i].name, x)
    ensures |t.daemons| == |s.daemons| && (t.daemons[i].running ==> Keeps(t.daemons[i], t.log, from, x))
    decreases |steps|
  {
    if steps != [] {
      var u := Next(s, steps[0], limit);
      LogGrows(u, steps[1..], limit, t);
      NextFrame(s, steps[0], limit, i);
      assert forall k :: from <= k < |s.log| ==> s.log[k] == t.log[k];
      forall j, k | 0 <= j < |u.daemons| && 0 <= k < |u.daemons| && j != k ensures u.daemons[j].name != u.daemons[k].name {
        NextFrame(s, steps[0], limit, j);
        NextFrame(s, steps[0], limit, k);
      }
      if s.daemons[i].running {
        NextKeepsAddress(s, steps[0], limit, i, from, x, u);
      }
      HolderKeeps(u, steps[1..], limit, t, i, from, x);
    }
  }
}
