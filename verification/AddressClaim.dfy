/**
 * SAE J1939-81 address claiming as j1939acd does it: the decisions of one
 * daemon on each message, and any number of daemons on a bus that delivers
 * every frame to every daemon, its sender included, in one order.
 */
module AddressClaim {
  const IDLE_ADDR: nat := 254
  const NO_ADDR: nat := 255

  datatype Frame = Claim(name: nat, addr: nat) | Request | Commanded(name: nat, addr: nat)

  datatype State = Closed | Initial | ReqSent | ReqPending | Operational

  /**
   * A daemon. `bound` is the address last claimed (last_sa), `alarm` says that
   * the timer is armed or has fired unhandled. Frames since..rx of the bus have
   * been received; `seen` says that a claim of its own for a real address was
   * among them.
   */
  datatype Daemon = Daemon(
    name: nat, use: seq<bool>, names: seq<nat>, current: nat, bound: nat,
    state: State, alarm: bool, running: bool, since: nat, rx: nat, seen: bool)

  /** The daemon after a step, and the frames it put on the bus. */
  datatype Effect = Effect(d: Daemon, sent: seq<Frame>)

  predicate WellFormed(d: Daemon) {
    |d.use| == IDLE_ADDR && |d.names| == IDLE_ADDR
  }

  // ---- The address table ----

  /** The first entry from j on that holds a NAME. */
  function LookupFrom(names: seq<nat>, name: nat, j: nat): (r: nat)
    requires |names| == IDLE_ADDR && j <= IDLE_ADDR
    ensures j <= r <= IDLE_ADDR && (r < IDLE_ADDR ==> names[r] == name)
    ensures forall k :: j <= k < r ==> names[k] != name
    decreases IDLE_ADDR - j, names
  {
    if j == IDLE_ADDR || names[j] == name then j else LookupFrom(names, name, j + 1)
  }

  /** The table after an address claim. */
  function Record(names: seq<nat>, f: Frame): (r: seq<nat>)
    requires |names| == IDLE_ADDR && f.Claim?
    ensures |r| == IDLE_ADDR
  {
    var held := LookupFrom(names, f.name, 0);
    var cleared := if held < IDLE_ADDR && held != f.addr then names[held := 0] else names;
    if f.addr < IDLE_ADDR then cleared[f.addr := f.name] else cleared
  }

  predicate Free(d: Daemon, j: nat)
    requires WellFormed(d) && j < IDLE_ADDR
  {
    d.use[j] && (d.names[j] == 0 || d.names[j] == d.name)
  }

  predicate Beatable(d: Daemon, j: nat)
    requires WellFormed(d) && j < IDLE_ADDR
  {
    d.use[j] && d.name < d.names[j]
  }

  function FirstFree(d: Daemon, j: nat): (r: nat)
    requires WellFormed(d) && j <= IDLE_ADDR
    ensures j <= r <= IDLE_ADDR && (r < IDLE_ADDR ==> Free(d, r))
    ensures forall k :: j <= k < r ==> !Free(d, k)
    decreases IDLE_ADDR - j, d
  {
    if j == IDLE_ADDR || Free(d, j) then j else FirstFree(d, j + 1)
  }

  /** The cyclic successor used by the last scan of choose_new_sa(). */
  function Wrap(j: nat): nat {
    if j >= IDLE_ADDR then 0 else j
  }

  /** Scans `left` entries for one held by a higher NAME, wrapping at the end of the table. */
  function NextBeatable(d: Daemon, j: nat, left: nat): (r: nat)
    requires WellFormed(d)
    ensures r <= IDLE_ADDR && (r < IDLE_ADDR ==> Beatable(d, r))
    decreases left, d
  {
    if left == 0 then IDLE_ADDR
    else if Beatable(d, Wrap(j)) then Wrap(j)
    else NextBeatable(d, Wrap(j) + 1, left - 1)
  }

  /** choose_new_sa() */
  function ChooseNewSa(d: Daemon, sa: nat): nat
    requires WellFormed(d)
  {
    if sa < IDLE_ADDR && (Free(d, sa) || Beatable(d, sa)) then sa
    else if FirstFree(d, 0) < IDLE_ADDR then FirstFree(d, 0)
    else NextBeatable(d, sa + 1, IDLE_ADDR)
  }

  // ---- One daemon ----

  /** claim_address(): binds, and sends unless the send fails, which arms the retry timer. */
  function ClaimAddress(d: Daemon, sa: nat, ok: bool): Effect {
    if ok then Effect(d.(bound := sa), [Claim(d.name, sa)])
    else Effect(d.(bound := sa, alarm := true), [])
  }

  /** Leaving the main loop: the address is given up. */
  function Leave(d: Daemon, ok: bool): Effect {
    Effect(ClaimAddress(d, IDLE_ADDR, ok).d.(running := false), ClaimAddress(d, IDLE_ADDR, ok).sent)
  }

  /** The switch on the state at the top of the main loop. */
  function Wake(d: Daemon, ok: bool): Effect
    requires WellFormed(d)
  {
    match d.state
    case Initial => if ok then Effect(d.(state := ReqSent), [Request]) else Effect(d.(running := false), [])
    case ReqPending =>
      if !d.alarm then Effect(d, [])
      else
        var sa := ChooseNewSa(d, d.current);
        if sa == IDLE_ADDR then Effect(d.(alarm := false, running := false), [])
        else ClaimAddress(d.(alarm := false, state := Operational), sa, ok)
    case Operational =>
      if d.alarm then ClaimAddress(d.(alarm := false), d.bound, ok) else Effect(d, [])
    case _ => Effect(d, [])
  }

  /** Another NAME claims the daemon's address: the lower NAME keeps it, the higher one moves on or leaves. */
  function Contend(d: Daemon, f: Frame, ok: bool): Effect
    requires WellFormed(d) && f.Claim?
  {
    if d.name <= f.name then ClaimAddress(d, f.addr, ok)
    else
      var sa := ChooseNewSa(d, f.addr);
      if sa == IDLE_ADDR then Leave(d.(current := IDLE_ADDR), ok) else ClaimAddress(d, sa, ok)
  }

  /** An address claim of another daemon or of this one. */
  function ReceiveClaim(d: Daemon, f: Frame, ok: bool): Effect
    requires WellFormed(d) && f.Claim?
  {
    var d1 := d.(names := Record(d.names, f));
    if f.addr >= IDLE_ADDR then Effect(d1, [])
    else if f.name == d.name then Effect(d1.(current := f.addr, seen := true), [])
    else if f.addr != d.current then Effect(d1, [])
    else Contend(d1, f, ok)
  }

  /** A received frame. */
  function Receive(d: Daemon, f: Frame, ok: bool): Effect
    requires WellFormed(d)
  {
    match f
    case Request =>
      if d.state == ReqSent then Effect(d.(alarm := true, state := ReqPending), [])
      else if d.state == Operational then ClaimAddress(d, d.current, ok)
      else Effect(d, [])
    case Claim(_, _) => ReceiveClaim(d, f, ok)
    case Commanded(name, addr) => if name == d.name then ClaimAddress(d, addr, ok) else Effect(d, [])
  }

  // ---- Daemons on a bus ----

  datatype System = System(daemons: seq<Daemon>, log: seq<Frame>)

  /** `ok` is the outcome of a send during the step. */
  datatype Step =
    | Open(i: nat)
    | Awake(i: nat, ok: bool)
    | Deliver(i: nat, ok: bool)
    | Terminate(i: nat, ok: bool)
    | Foreign(f: Frame)

  /**
   * The step can happen. Other nodes may send anything but claims in a
   * daemon's NAME; address commands stay below `limit`.
   */
  predicate Enabled(s: System, step: Step, limit: nat) {
    match step
    case Open(i) => i < |s.daemons| && s.daemons[i].state == Closed
    case Awake(i, _) => i < |s.daemons| && s.daemons[i].running && s.daemons[i].state != Closed
    case Deliver(i, _) =>
      i < |s.daemons| && s.daemons[i].running && s.daemons[i].rx < |s.log|
      && s.daemons[i].state != Closed && s.daemons[i].state != Initial
    case Terminate(i, _) => i < |s.daemons| && s.daemons[i].running && s.daemons[i].state != Closed
    case Foreign(f) =>
      match f
      case Request => true
      case Claim(name, _) => forall i :: 0 <= i < |s.daemons| ==> s.daemons[i].name != name
      case Commanded(_, addr) => addr < limit
  }

  ghost predicate SystemOk(s: System) {
    forall i :: 0 <= i < |s.daemons| ==> WellFormed(s.daemons[i])
  }

  function Apply(s: System, i: nat, e: Effect): System
    requires i < |s.daemons|
  {
    System(s.daemons[i := e.d], s.log + e.sent)
  }

  function Next(s: System, step: Step, limit: nat): System
    requires SystemOk(s) && Enabled(s, step, limit)
  {
    match step
    case Open(i) => s.(daemons := s.daemons[i := s.daemons[i].(state := Initial, since := |s.log|, rx := |s.log|)])
    case Awake(i, ok) => Apply(s, i, Wake(s.daemons[i], ok))
    case Deliver(i, ok) =>
      var d := s.daemons[i];
      Apply(s, i, Receive(d.(rx := d.rx + 1), s.log[d.rx], ok))
    case Terminate(i, ok) => Apply(s, i, Leave(s.daemons[i], ok))
    case Foreign(f) => s.(log := s.log + [f])
  }

  /** Daemons that have not started, with any NAMEs, ranges and first addresses. */
  ghost predicate Start(s: System) {
    && s.log == []
    && (forall i, j :: 0 <= i < j < |s.daemons| ==> s.daemons[i].name != s.daemons[j].name)
    && forall i :: 0 <= i < |s.daemons| ==>
         var d := s.daemons[i];
         && WellFormed(d) && d.state == Closed && d.running && !d.seen && !d.alarm
         && d.since == 0 && d.rx == 0 && d.bound == NO_ADDR && (forall j :: 0 <= j < IDLE_ADDR ==> d.names[j] == 0)
  }

  // ---- What a daemon has made of the bus ----

  /** The frame is a claim by `name` for a real address. */
  predicate Holds(f: Frame, name: nat) {
    f.Claim? && f.name == name && f.addr < IDLE_ADDR
  }

  /** The position of the last such claim among the first k frames, -1 for none. */
  function LastHeld(log: seq<Frame>, name: nat, k: nat): (p: int)
    requires k <= |log|
    ensures -1 <= p < k && (p >= 0 ==> Holds(log[p], name))
    ensures forall q :: p < q < k ==> !Holds(log[q], name)
  {
    if k == 0 then -1 else if Holds(log[k - 1], name) then k - 1 else LastHeld(log, name, k - 1)
  }

  /** Frame b is a later claim by another NAME for the address claimed at p. */
  predicate Contests(log: seq<Frame>, p: nat, b: nat)
    requires p < |log| && b < |log|
  {
    p < b && log[p].Claim? && log[b].Claim? && log[b].name != log[p].name && log[b].addr == log[p].addr
  }

  /** A retry for a real address is due, or the daemon was commanded away from real addresses. */
  predicate Excused(d: Daemon, limit: nat) {
    (d.alarm && d.bound < IDLE_ADDR) || (limit > IDLE_ADDR && d.bound >= IDLE_ADDR)
  }

  /** The daemon has answered every claim it received that contests its last one. */
  ghost predicate Answered(d: Daemon, log: seq<Frame>, limit: nat)
    requires d.rx <= |log|
  {
    var p := LastHeld(log, d.name, |log|);
    p >= 0 && d.running && !Excused(d, limit) ==> forall b :: p < b < d.rx ==> !Contests(log, p, b)
  }

  /** What a daemon knows of its own claims. */
  ghost predicate Tracks(d: Daemon, log: seq<Frame>)
    requires d.rx <= |log|
  {
    var p := LastHeld(log, d.name, d.rx);
    && (d.running ==> (d.seen <==> p >= 0) && (p >= 0 ==> d.current == log[p].addr))
    && (d.state == Closed ==> LastHeld(log, d.name, |log|) == -1)
  }

  ghost predicate DaemonInv(d: Daemon, log: seq<Frame>, limit: nat) {
    WellFormed(d) && d.rx <= |log| && Tracks(d, log) && Answered(d, log, limit)
  }

  ghost predicate Inv(s: System, limit: nat) {
    && (forall k :: 0 <= k < |s.log| && s.log[k].Commanded? ==> s.log[k].addr < limit)
    && (forall i, j :: 0 <= i < j < |s.daemons| ==> s.daemons[i].name != s.daemons[j].name)
    && (forall i :: 0 <= i < |s.daemons| ==> DaemonInv(s.daemons[i], s.log, limit))
  }

  // ---- The invariant is kept by every step ----

  lemma {:induction false} LastHeldPrefix(log: seq<Frame>, f: Frame, name: nat, k: nat)
    requires k <= |log|
    ensures LastHeld(log + [f], name, k) == LastHeld(log, name, k)
  {
    if k > 0 {
      LastHeldPrefix(log, f, name, k - 1);
    }
  }

  /** If the last claim of all has been received, it is the last one received. */
  lemma {:induction false} LastHeldEarlier(log: seq<Frame>, name: nat, j: nat, k: nat)
    requires j <= k <= |log| && LastHeld(log, name, k) < j
    ensures LastHeld(log, name, j) == LastHeld(log, name, k)
    decreases k - j
  {
    if j < k {
      LastHeldEarlier(log, name, j, k - 1);
    }
  }

  /** Frames of others change nothing for a daemon. */
  lemma OthersFrame(d: Daemon, log: seq<Frame>, f: Frame, limit: nat)
    requires DaemonInv(d, log, limit) && !Holds(f, d.name)
    ensures DaemonInv(d, log + [f], limit)
  {
    LastHeldPrefix(log, f, d.name, d.rx);
    LastHeldPrefix(log, f, d.name, |log|);
    var p := LastHeld(log, d.name, |log|);
    assert LastHeld(log + [f], d.name, |log + [f]|) == p;
    forall b | p >= 0 && d.running && !Excused(d, limit) && p < b < d.rx
      ensures !Contests(log + [f], p, b)
    {
      assert !Contests(log, p, b);
    }
  }

  /** After a claim of its own for a real address, nothing is left to answer. */
  lemma OwnFrame(d: Daemon, log: seq<Frame>, f: Frame, limit: nat)
    requires WellFormed(d) && d.rx <= |log| && Tracks(d, log) && Holds(f, d.name) && d.state != Closed
    ensures DaemonInv(d, log + [f], limit)
  {
    LastHeldPrefix(log, f, d.name, d.rx);
  }

  /** Puts together what a step of a daemon has to show. */
  lemma StepKeeps(d: Daemon, log: seq<Frame>, sent: seq<Frame>, limit: nat)
    requires WellFormed(d) && d.rx <= |log| && Tracks(d, log) && d.state != Closed
    requires |sent| <= 1
    requires sent == [] || !Holds(sent[0], d.name) ==> Answered(d, log, limit)
    ensures DaemonInv(d, log + sent, limit)
  {
    if sent == [] {
      assert log + sent == log;
    } else {
      assert sent == [sent[0]];
      if Holds(sent[0], d.name) {
        OwnFrame(d, log, sent[0], limit);
      } else {
        OthersFrame(d, log, sent[0], limit);
      }
    }
  }

  lemma ChosenIsRealOrIdle(d: Daemon, sa: nat)
    requires WellFormed(d)
    ensures ChooseNewSa(d, sa) <= IDLE_ADDR
  {
  }

  lemma WakeKeeps(d: Daemon, log: seq<Frame>, ok: bool, limit: nat)
    requires DaemonInv(d, log, limit) && d.running && d.state != Closed
    ensures DaemonInv(Wake(d, ok).d, log + Wake(d, ok).sent, limit)
  {
    var e := Wake(d, ok);
    ChosenIsRealOrIdle(d, d.current);
    assert Excused(d, limit) && e.d.running && (e.sent == [] || !Holds(e.sent[0], d.name)) ==> Excused(e.d, limit);
    StepKeeps(e.d, log, e.sent, limit);
  }

  lemma LeaveKeeps(d: Daemon, log: seq<Frame>, ok: bool, limit: nat)
    requires DaemonInv(d, log, limit) && d.running && d.state != Closed
    ensures DaemonInv(Leave(d, ok).d, log + Leave(d, ok).sent, limit)
  {
    StepKeeps(Leave(d, ok).d, log, Leave(d, ok).sent, limit);
  }

  /** A daemon that has heard its last claim answers a contest, and stays excused otherwise. */
  lemma ReceiveAnswers(d: Daemon, f: Frame, ok: bool, limit: nat)
    requires WellFormed(d) && d.running && d.current < IDLE_ADDR
    requires f.Commanded? ==> f.addr < limit
    requires Excused(d, limit) || (f.Claim? && f.name != d.name && f.addr == d.current)
    ensures var e := Receive(d, f, ok);
      && (e.d.running && (e.sent == [] || !Holds(e.sent[0], d.name)) ==> Excused(e.d, limit))
  {
    if f.Claim? {
      ChosenIsRealOrIdle(d.(names := Record(d.names, f)), f.addr);
    }
  }

  /** What receiving a frame leaves alone. */
  predicate Shape(d: Daemon, f: Frame, e: Effect) {
    && WellFormed(e.d) && e.d.name == d.name && e.d.rx == d.rx && e.d.use == d.use && e.d.since == d.since && |e.sent| <= 1
    && (d.state != Closed ==> e.d.state != Closed) && (e.d.running ==> d.running)
    && (e.d.running ==> e.d.seen == (d.seen || Holds(f, d.name)))
    && (e.d.running ==> e.d.current == if Holds(f, d.name) then f.addr else d.current)
  }

  lemma ClaimShape(d: Daemon, f: Frame, sa: nat, ok: bool)
    requires WellFormed(d) && !Holds(f, d.name)
    ensures Shape(d, f, ClaimAddress(d, sa, ok))
  {
  }

  lemma ContendShape(d: Daemon, f: Frame, ok: bool)
    requires WellFormed(d) && f.Claim? && !Holds(f, d.name)
    ensures Shape(d, f, Contend(d, f, ok)) && Contend(d, f, ok).d.names == d.names
  {
    ClaimShape(d, f, f.addr, ok);
    ClaimShape(d, f, ChooseNewSa(d, f.addr), ok);
  }

  lemma ReceiveClaimShape(d: Daemon, f: Frame, ok: bool)
    requires WellFormed(d) && f.Claim?
    ensures Shape(d, f, ReceiveClaim(d, f, ok))
    ensures ReceiveClaim(d, f, ok).d.names == Record(d.names, f)
  {
    var names := Record(d.names, f);
    if f.addr < IDLE_ADDR && f.name != d.name && f.addr == d.current {
      ContendShape(d.(names := names), f, ok);
    }
  }

  lemma ReceiveShape(d: Daemon, f: Frame, ok: bool)
    requires WellFormed(d)
    ensures Shape(d, f, Receive(d, f, ok))
    ensures Receive(d, f, ok).d.names == if f.Claim? then Record(d.names, f) else d.names
  {
    if f.Claim? {
      ReceiveClaimShape(d, f, ok);
    }
  }

  lemma TracksStep(d: Daemon, log: seq<Frame>, e: Effect)
    requires d.rx < |log| && Tracks(d, log) && d.running && d.state != Closed
    requires Shape(d.(rx := d.rx + 1), log[d.rx], e)
    ensures Tracks(e.d, log)
  {
  }

  lemma AnsweredStep(d: Daemon, log: seq<Frame>, ok: bool, limit: nat, e: Effect, b: nat)
    requires DaemonInv(d, log, limit) && d.running && d.rx < |log| && d.state != Closed
    requires log[d.rx].Commanded? ==> log[d.rx].addr < limit
    requires e == Receive(d.(rx := d.rx + 1), log[d.rx], ok)
    requires e.d.running && (e.sent == [] || !Holds(e.sent[0], d.name)) && b <= d.rx
    requires var p := LastHeld(log, d.name, |log|); 0 <= p < b && Contests(log, p, b)
    ensures Excused(e.d, limit)
  {
    LastHeldEarlier(log, d.name, d.rx, |log|);
    ReceiveAnswers(d.(rx := d.rx + 1), log[d.rx], ok, limit);
  }

  lemma ReceiveKeeps(d: Daemon, log: seq<Frame>, ok: bool, limit: nat, e: Effect)
    requires DaemonInv(d, log, limit) && d.running && d.rx < |log| && d.state != Closed
    requires log[d.rx].Commanded? ==> log[d.rx].addr < limit
    requires e == Receive(d.(rx := d.rx + 1), log[d.rx], ok) && Shape(d.(rx := d.rx + 1), log[d.rx], e)
    ensures DaemonInv(e.d, log + e.sent, limit)
  {
    TracksStep(d, log, e);
    var p := LastHeld(log, d.name, |log|);
    if e.sent == [] || !Holds(e.sent[0], d.name) {
      forall b | p >= 0 && e.d.running && !Excused(e.d, limit) && p < b < e.d.rx
        ensures !Contests(log, p, b)
      {
        if Contests(log, p, b) {
          AnsweredStep(d, log, ok, limit, e, b);
        }
      }
    }
    StepKeeps(e.d, log, e.sent, limit);
  }

  /** Opening the socket: the frames before it are never received. */
  lemma OpenKeeps(d: Daemon, log: seq<Frame>, limit: nat)
    requires DaemonInv(d, log, limit) && d.state == Closed
    ensures DaemonInv(d.(state := Initial, since := |log|, rx := |log|), log, limit)
  {
    LastHeldEarlier(log, d.name, d.rx, |log|);
  }

  /** A step of daemon i keeps the invariant of the others. */
  lemma ApplyKeeps(s: System, i: nat, e: Effect, limit: nat)
    requires Inv(s, limit) && i < |s.daemons|
    requires e.d.name == s.daemons[i].name && DaemonInv(e.d, s.log + e.sent, limit)
    requires |e.sent| <= 1 && (e.sent != [] ==> e.sent[0] == Request || (e.sent[0].Claim? && e.sent[0].name == e.d.name))
    ensures Inv(Apply(s, i, e), limit)
  {
    var t := Apply(s, i, e);
    forall j | 0 <= j < |t.daemons| ensures DaemonInv(t.daemons[j], t.log, limit) {
      if j != i {
        assert t.daemons[j] == s.daemons[j] && t.daemons[j].name != e.d.name;
        if e.sent == [] {
          assert t.log == s.log;
        } else {
          assert e.sent == [e.sent[0]];
          OthersFrame(s.daemons[j], s.log, e.sent[0], limit);
        }
      }
    }
  }

  lemma ReceiveSends(d: Daemon, f: Frame, ok: bool)
    requires WellFormed(d)
    ensures var e := Receive(d, f, ok);
      && (e.sent == [] || (|e.sent| == 1 && e.sent[0].Claim? && e.sent[0].name == d.name))
  {
  }

  lemma WakeSends(d: Daemon, ok: bool)
    requires WellFormed(d)
    ensures var e := Wake(d, ok);
      && e.d.name == d.name && |e.sent| <= 1
      && (e.sent != [] ==> e.sent[0] == Request || (e.sent[0].Claim? && e.sent[0].name == d.name))
  {
  }

  lemma AwakeKeeps(s: System, i: nat, ok: bool, limit: nat)
    requires Inv(s, limit) && SystemOk(s) && Enabled(s, Awake(i, ok), limit)
    ensures Inv(Apply(s, i, Wake(s.daemons[i], ok)), limit)
  {
    WakeKeeps(s.daemons[i], s.log, ok, limit);
    WakeSends(s.daemons[i], ok);
    ApplyKeeps(s, i, Wake(s.daemons[i], ok), limit);
  }

  lemma ReceiveStep(d: Daemon, log: seq<Frame>, ok: bool, limit: nat, e: Effect)
    requires DaemonInv(d, log, limit) && d.running && d.rx < |log| && d.state != Closed
    requires log[d.rx].Commanded? ==> log[d.rx].addr < limit
    requires e == Receive(d.(rx := d.rx + 1), log[d.rx], ok)
    ensures e.d.name == d.name && DaemonInv(e.d, log + e.sent, limit)
    ensures e.sent == [] || (|e.sent| == 1 && e.sent[0].Claim? && e.sent[0].name == d.name)
  {
    ReceiveShape(d.(rx := d.rx + 1), log[d.rx], ok);
    ReceiveKeeps(d, log, ok, limit, e);
    ReceiveSends(d.(rx := d.rx + 1), log[d.rx], ok);
  }

  lemma DeliverKeeps(s: System, i: nat, ok: bool, limit: nat, d: Daemon, e: Effect)
    requires Inv(s, limit) && SystemOk(s) && Enabled(s, Deliver(i, ok), limit)
    requires d == s.daemons[i] && e == Receive(d.(rx := d.rx + 1), s.log[d.rx], ok)
    ensures Inv(Apply(s, i, e), limit)
  {
    ReceiveStep(d, s.log, ok, limit, e);
    ApplyKeeps(s, i, e, limit);
  }

  lemma ForeignKeeps(s: System, f: Frame, limit: nat)
    requires Inv(s, limit) && SystemOk(s) && Enabled(s, Foreign(f), limit)
    ensures Inv(s.(log := s.log + [f]), limit)
  {
    forall j | 0 <= j < |s.daemons| ensures DaemonInv(s.daemons[j], s.log + [f], limit) {
      OthersFrame(s.daemons[j], s.log, f, limit);
    }
  }

  lemma OpenStepKeeps(s: System, i: nat, limit: nat)
    requires Inv(s, limit) && SystemOk(s) && Enabled(s, Open(i), limit)
    ensures Inv(Next(s, Open(i), limit), limit)
  {
    OpenKeeps(s.daemons[i], s.log, limit);
  }

  lemma TerminateKeeps(s: System, i: nat, ok: bool, limit: nat)
    requires Inv(s, limit) && SystemOk(s) && Enabled(s, Terminate(i, ok), limit)
    ensures Inv(Apply(s, i, Leave(s.daemons[i], ok)), limit)
  {
    LeaveKeeps(s.daemons[i], s.log, ok, limit);
    ApplyKeeps(s, i, Leave(s.daemons[i], ok), limit);
  }

  lemma NextKeeps(s: System, step: Step, limit: nat)
    requires Inv(s, limit) && SystemOk(s) && Enabled(s, step, limit)
    ensures Inv(Next(s, step, limit), limit)
  {
    match step
    case Open(i) => OpenStepKeeps(s, i, limit);
    case Awake(i, ok) => AwakeKeeps(s, i, ok, limit);
    case Deliver(i, ok) =>
      var d := s.daemons[i];
      DeliverKeeps(s, i, ok, limit, d, Receive(d.(rx := d.rx + 1), s.log[d.rx], ok));
    case Terminate(i, ok) => TerminateKeeps(s, i, ok, limit);
    case Foreign(f) => ForeignKeeps(s, f, limit);
  }

  // ---- Whole runs ----

  /** The steps lead from s to t. */
  ghost predicate Reaches(s: System, steps: seq<Step>, limit: nat, t: System)
    decreases |steps|
  {
    if steps == [] then s == t
    else
      && SystemOk(s) && Enabled(s, steps[0], limit)
      && Reaches(Next(s, steps[0], limit), steps[1..], limit, t)
  }

  lemma {:induction false} RunKeeps(s: System, steps: seq<Step>, limit: nat, t: System)
    requires Inv(s, limit) && Reaches(s, steps, limit, t)
    ensures Inv(t, limit)
    decreases |steps|
  {
    if steps != [] {
      NextKeeps(s, steps[0], limit);
      RunKeeps(Next(s, steps[0], limit), steps[1..], limit, t);
    }
  }

  lemma StartInv(s: System, limit: nat)
    requires Start(s)
    ensures Inv(s, limit)
  {
  }

  /** A running daemon that saw its own claim, with no claim in flight to it and no retry due. */
  ghost predicate Settled(s: System, i: nat) {
    && i < |s.daemons|
    && var d := s.daemons[i];
       && d.running && d.seen && !d.alarm
       && forall k :: d.rx <= k < |s.log| ==> !s.log[k].Claim?
  }

  /** A settled daemon's address is that of its last claim, which it has received. */
  lemma SettledHolds(s: System, limit: nat, i: nat)
    requires Inv(s, limit) && Settled(s, i)
    ensures var p := LastHeld(s.log, s.daemons[i].name, |s.log|);
      && 0 <= p < s.daemons[i].rx && s.log[p] == Claim(s.daemons[i].name, s.daemons[i].current)
  {
    var d := s.daemons[i];
    assert DaemonInv(d, s.log, limit);
    LastHeldEarlier(s.log, d.name, d.rx, |s.log|);
  }

  /** Of two holders of one address, the one that claimed it first has not answered the other. */
  lemma EarlierHolder(s: System, limit: nat, i: nat, j: nat)
    requires Inv(s, limit) && Settled(s, i) && Settled(s, j) && i != j
    requires s.daemons[i].current == s.daemons[j].current
    requires LastHeld(s.log, s.daemons[i].name, |s.log|) < LastHeld(s.log, s.daemons[j].name, |s.log|)
    ensures limit > IDLE_ADDR && s.daemons[i].bound >= IDLE_ADDR
  {
    var d := s.daemons[i];
    SettledHolds(s, limit, i);
    SettledHolds(s, limit, j);
    assert DaemonInv(d, s.log, limit);
    assert Contests(s.log, LastHeld(s.log, d.name, |s.log|), LastHeld(s.log, s.daemons[j].name, |s.log|));
  }

  /**
   * Over every run: two settled daemons hold the same address only if one of
   * them was commanded to an address that no node can hold.
   */
  lemma NoTwoHolders(s: System, steps: seq<Step>, limit: nat, t: System, i: nat, j: nat)
    requires Start(s) && Reaches(s, steps, limit, t)
    requires Settled(t, i) && Settled(t, j) && i != j
    requires t.daemons[i].current == t.daemons[j].current
    ensures limit > IDLE_ADDR && (t.daemons[i].bound >= IDLE_ADDR || t.daemons[j].bound >= IDLE_ADDR)
  {
    StartInv(s, limit);
    RunKeeps(s, steps, limit, t);
    SettledHolds(t, limit, i);
    SettledHolds(t, limit, j);
    if LastHeld(t.log, t.daemons[i].name, |t.log|) < LastHeld(t.log, t.daemons[j].name, |t.log|) {
      EarlierHolder(t, limit, i, j);
    } else {
      EarlierHolder(t, limit, j, i);
    }
  }
}
