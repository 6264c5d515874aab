/**
 * What a daemon's address table says about the bus, and which address it
 * chooses from it.
 */
module AddressTable {
  import opened AddressClaim

  // ---- choose_new_sa() ----

  /** The k-th entry of the cyclic scan that starts at j. */
  function Entry(j: nat, k: nat): nat
    requires k < IDLE_ADDR
  {
    if Wrap(j) + k < IDLE_ADDR then Wrap(j) + k else Wrap(j) + k - IDLE_ADDR
  }

  /** How far along that scan entry r lies. */
  function Distance(j: nat, r: nat): nat
    requires r < IDLE_ADDR
  {
    if r >= Wrap(j) then r - Wrap(j) else r + IDLE_ADDR - Wrap(j)
  }

  /** The first n entries of the scan from j are not held by higher NAMEs. */
  ghost predicate NoneBeatable(d: Daemon, j: nat, n: nat)
    requires WellFormed(d) && n <= IDLE_ADDR
  {
    forall k :: 0 <= k < n ==> !Beatable(d, Entry(j, k))
  }

  lemma {:induction false} NextBeatableIsFirst(d: Daemon, j: nat, left: nat)
    requires WellFormed(d) && left <= IDLE_ADDR
    ensures var r := NextBeatable(d, j, left);
      && NoneBeatable(d, j, if r < IDLE_ADDR then Distance(j, r) else left)
      && (r < IDLE_ADDR ==> Distance(j, r) < left)
    decreases left
  {
    if left > 0 && !Beatable(d, Wrap(j)) {
      NextBeatableIsFirst(d, Wrap(j) + 1, left - 1);
      var r := NextBeatable(d, j, left);
      forall k | 0 <= k < (if r < IDLE_ADDR then Distance(j, r) else left) ensures !Beatable(d, Entry(j, k)) {
        assert k > 0 ==> Entry(j, k) == Entry(Wrap(j) + 1, k - 1);
      }
    }
  }

  /** The whole table has been scanned. */
  lemma ScanIsComplete(d: Daemon, j: nat, k: nat)
    requires WellFormed(d) && NoneBeatable(d, j, IDLE_ADDR) && k < IDLE_ADDR
    ensures !Beatable(d, k)
  {
    assert k == Entry(j, Distance(j, k));
  }

  /** The daemon may take address j: it is usable and not held by a lower NAME. */
  predicate Available(d: Daemon, j: nat)
    requires WellFormed(d) && j < IDLE_ADDR
  {
    d.use[j] && (d.names[j] == 0 || d.name <= d.names[j])
  }

  lemma NoneAvailable(d: Daemon, j: nat)
    requires WellFormed(d) && NoneBeatable(d, j, IDLE_ADDR)
    requires forall k :: 0 <= k < IDLE_ADDR ==> !Free(d, k)
    ensures forall k :: 0 <= k < IDLE_ADDR ==> !Available(d, k)
  {
    forall k | 0 <= k < IDLE_ADDR ensures !Available(d, k) {
      assert !Free(d, k);
      ScanIsComplete(d, j, k);
    }
  }

  /** An address is chosen exactly when one is available, and then an available one. */
  lemma ChosenIsAvailable(d: Daemon, sa: nat)
    requires WellFormed(d)
    ensures var r := ChooseNewSa(d, sa);
      && (r < IDLE_ADDR ==> Available(d, r))
      && (r >= IDLE_ADDR ==> forall j :: 0 <= j < IDLE_ADDR ==> !Available(d, j))
  {
    if ChooseNewSa(d, sa) >= IDLE_ADDR {
      NextBeatableIsFirst(d, sa + 1, IDLE_ADDR);
      NoneAvailable(d, sa + 1);
    }
  }

  /** An available address is kept; else the lowest free one is taken; else the next one held by a higher NAME. */
  lemma ChosenIsFirst(d: Daemon, sa: nat)
    requires WellFormed(d) && ChooseNewSa(d, sa) < IDLE_ADDR
    ensures var r := ChooseNewSa(d, sa);
      && (sa < IDLE_ADDR && Available(d, sa) ==> r == sa)
      && (r != sa && Free(d, r) ==> forall j :: 0 <= j < r ==> !Free(d, j))
      && (r != sa && !Free(d, r) ==> forall j :: 0 <= j < IDLE_ADDR ==> !Free(d, j))
      && (r != sa && !Free(d, r) ==> NoneBeatable(d, sa + 1, Distance(sa + 1, r)))
  {
    NextBeatableIsFirst(d, sa + 1, IDLE_ADDR);
  }

  /** The table shows another NAME at an address claimed by it. */
  lemma RecordShows(names: seq<nat>, f: Frame)
    requires |names| == IDLE_ADDR && f.Claim? && f.addr < IDLE_ADDR
    ensures Record(names, f)[f.addr] == f.name
  {
  }

  /**
   * A contested address goes to the lower NAME: its holder claims it again,
   * and a holder with a higher NAME claims another one that it may take, or
   * gives up and leaves when there is none.
   */
  lemma ContestDecidedByName(d: Daemon, f: Frame, ok: bool)
    requires WellFormed(d) && f.Claim? && f.addr < IDLE_ADDR && f.addr == d.current
    requires 0 < f.name && f.name != d.name
    ensures var e, d1 := ReceiveClaim(d, f, ok), d.(names := Record(d.names, f));
      && (e.sent == if ok then [Claim(d.name, e.d.bound)] else []) && (!ok ==> e.d.alarm)
      && (d.name < f.name ==> e.d.running == d.running && e.d.bound == f.addr)
      && (f.name < d.name ==> e.d.bound != f.addr)
      && (f.name < d.name && e.d.bound < IDLE_ADDR ==> Available(d1, e.d.bound) && e.d.running == d.running)
      && (f.name < d.name && e.d.bound >= IDLE_ADDR ==>
            !e.d.running && e.d.current == IDLE_ADDR && forall j :: 0 <= j < IDLE_ADDR ==> !Available(d1, j))
  {
    var d1 := d.(names := Record(d.names, f));
    RecordShows(d.names, f);
    ChosenIsAvailable(d1, f.addr);
    ChosenIsRealOrIdle(d1, f.addr);
  }

  // ---- The table ----

  /** No NAME has two entries. */
  predicate Unique(names: seq<nat>) {
    forall i, j :: 0 <= i < j < |names| && names[i] != 0 ==> names[i] != names[j]
  }

  lemma RecordKeepsUnique(names: seq<nat>, f: Frame)
    requires |names| == IDLE_ADDR && f.Claim? && Unique(names)
    ensures Unique(Record(names, f))
  {
    var held := LookupFrom(names, f.name, 0);
    forall j | 0 <= j < IDLE_ADDR && names[j] == f.name && f.name != 0 ensures j == held {
    }
  }

  /** The position of the last claim by a NAME among frames from..k, -1 for none. */
  function LastClaim(log: seq<Frame>, name: nat, from: nat, k: nat): (p: int)
    requires from <= k <= |log|
    ensures p == -1 || (from <= p < k && log[p].Claim? && log[p].name == name)
    ensures forall q :: p < q < k && from <= q && log[q].Claim? ==> log[q].name != name
  {
    if k == from then -1
    else if log[k - 1].Claim? && log[k - 1].name == name then k - 1
    else LastClaim(log, name, from, k - 1)
  }

  /** Some claim for address j follows position p within the first k frames. */
  ghost predicate TakenSince(log: seq<Frame>, p: nat, k: nat, j: nat)
    requires k <= |log|
  {
    exists b :: p < b < k && log[b].Claim? && log[b].addr == j
  }

  /** A NAME's last claim was for address j and nobody has claimed j since. */
  ghost predicate Owns(log: seq<Frame>, from: nat, k: nat, name: nat, j: nat)
    requires from <= k <= |log|
  {
    var p := LastClaim(log, name, from, k);
    p >= 0 && log[p].addr == j && !TakenSince(log, p, k, j)
  }

  /** The table that results from the frames from..k. */
  function TableOf(log: seq<Frame>, from: nat, k: nat): (r: seq<nat>)
    requires from <= k <= |log|
    ensures |r| == IDLE_ADDR
  {
    if k == from then seq(IDLE_ADDR, i => 0)
    else if log[k - 1].Claim? then Record(TableOf(log, from, k - 1), log[k - 1])
    else TableOf(log, from, k - 1)
  }

  /** The table lists the owner of each address, and no owner twice. */
  lemma {:induction false} TableShowsOwners(log: seq<Frame>, from: nat, k: nat)
    requires from <= k <= |log|
    ensures Unique(TableOf(log, from, k))
    ensures forall j, name :: 0 <= j < IDLE_ADDR && name != 0 ==>
              (TableOf(log, from, k)[j] == name <==> Owns(log, from, k, name, j))
    decreases k - from
  {
    if k > from {
      TableShowsOwners(log, from, k - 1);
      if log[k - 1].Claim? {
        RecordKeepsUnique(TableOf(log, from, k - 1), log[k - 1]);
      }
      forall j: nat, name: nat | j < IDLE_ADDR && name != 0
        ensures TableOf(log, from, k)[j] == name <==> Owns(log, from, k, name, j)
      {
        OwnerStep(log, from, k, j, name);
      }
    }
  }

  lemma OwnerStep(log: seq<Frame>, from: nat, k: nat, j: nat, name: nat)
    requires from < k <= |log| && j < IDLE_ADDR && name != 0
    requires Unique(TableOf(log, from, k - 1))
    requires TableOf(log, from, k - 1)[j] == name <==> Owns(log, from, k - 1, name, j)
    ensures TableOf(log, from, k)[j] == name <==> Owns(log, from, k, name, j)
  {
    var f := log[k - 1];
    var p := LastClaim(log, name, from, k - 1);
    if f.Claim? && f.name == name {
      assert !TakenSince(log, k - 1, k, j);
    } else if p >= 0 {
      if f.Claim? && f.addr == j {
        assert TakenSince(log, p, k, j);
      } else {
        assert TakenSince(log, p, k - 1, j) <==> TakenSince(log, p, k, j);
      }
    }
  }

  // ---- Over whole runs ----

  ghost predicate TableInv(d: Daemon, log: seq<Frame>) {
    && WellFormed(d) && d.since <= d.rx <= |log|
    && (d.state == Closed ==> forall j :: 0 <= j < IDLE_ADDR ==> d.names[j] == 0)
    && (d.state != Closed ==> d.names == TableOf(log, d.since, d.rx))
  }

  ghost predicate TablesInv(s: System) {
    forall i :: 0 <= i < |s.daemons| ==> TableInv(s.daemons[i], s.log)
  }

  lemma {:induction false} TableOfPrefix(log: seq<Frame>, more: seq<Frame>, from: nat, k: nat)
    requires from <= k <= |log|
    ensures TableOf(log + more, from, k) == TableOf(log, from, k)
    decreases k - from
  {
    if k > from {
      TableOfPrefix(log, more, from, k - 1);
    }
  }

  lemma TableInvGrows(d: Daemon, log: seq<Frame>, more: seq<Frame>)
    requires TableInv(d, log)
    ensures TableInv(d, log + more)
  {
    if d.state != Closed {
      TableOfPrefix(log, more, d.since, d.rx);
    }
  }

  lemma ApplyKeepsTables(s: System, i: nat, e: Effect)
    requires TablesInv(s) && i < |s.daemons| && TableInv(e.d, s.log)
    ensures TablesInv(Apply(s, i, e))
  {
    forall j | 0 <= j < |s.daemons| ensures TableInv(Apply(s, i, e).daemons[j], s.log + e.sent) {
      TableInvGrows(if j == i then e.d else s.daemons[j], s.log, e.sent);
    }
  }

  lemma ReceiveKeepsTable(d: Daemon, log: seq<Frame>, ok: bool, e: Effect)
    requires TableInv(d, log) && d.rx < |log| && d.state != Closed
    requires e == Receive(d.(rx := d.rx + 1), log[d.rx], ok)
    ensures TableInv(e.d, log)
  {
    ReceiveShape(d.(rx := d.rx + 1), log[d.rx], ok);
  }

  lemma DeliverKeepsTables(s: System, i: nat, ok: bool, d: Daemon, e: Effect)
    requires TablesInv(s) && i < |s.daemons| && d == s.daemons[i] && d.rx < |s.log| && d.state != Closed
    requires TableInv(d, s.log) && e == Receive(d.(rx := d.rx + 1), s.log[d.rx], ok)
    ensures TablesInv(Apply(s, i, e))
  {
    ReceiveKeepsTable(d, s.log, ok, e);
    ApplyKeepsTables(s, i, e);
  }

  lemma AwakeKeepsTables(s: System, i: nat, ok: bool, limit: nat)
    requires TablesInv(s) && SystemOk(s) && Enabled(s, Awake(i, ok), limit)
    ensures TablesInv(Next(s, Awake(i, ok), limit))
  {
    ApplyKeepsTables(s, i, Wake(s.daemons[i], ok));
  }

  lemma NextKeepsTables(s: System, step: Step, limit: nat)
    requires TablesInv(s) && SystemOk(s) && Enabled(s, step, limit)
    ensures TablesInv(Next(s, step, limit))
  {
    match step
    case Open(i) => OpenTable(s.daemons[i], s.log);
    case Awake(i, ok) => AwakeKeepsTables(s, i, ok, limit);
    case Deliver(i, ok) =>
      var d := s.daemons[i];
      DeliverKeepsTables(s, i, ok, d, Receive(d.(rx := d.rx + 1), s.log[d.rx], ok));
    case Terminate(i, ok) => ApplyKeepsTables(s, i, Leave(s.daemons[i], ok));
    case Foreign(f) =>
      forall j | 0 <= j < |s.daemons| ensures TableInv(s.daemons[j], s.log + [f]) {
        TableInvGrows(s.daemons[j], s.log, [f]);
      }
  }

  lemma OpenTable(d: Daemon, log: seq<Frame>)
    requires TableInv(d, log) && d.state == Closed
    ensures TableInv(d.(state := Initial, since := |log|, rx := |log|), log)
  {
    assert d.names == TableOf(log, |log|, |log|);
  }

  lemma {:induction false} RunKeepsTables(s: System, steps: seq<Step>, limit: nat, t: System)
    requires TablesInv(s) && Reaches(s, steps, limit, t)
    ensures TablesInv(t)
    decreases |steps|
  {
    if steps != [] {
      NextKeepsTables(s, steps[0], limit);
      RunKeepsTables(Next(s, steps[0], limit), steps[1..], limit, t);
    }
  }

  /** Over every run, a started daemon's table shows the owners as of the frames it has received. */
  lemma TablesShowOwners(s: System, steps: seq<Step>, limit: nat, t: System, i: nat, j: nat, name: nat)
    requires Start(s) && Reaches(s, steps, limit, t)
    requires i < |t.daemons| && t.daemons[i].state != Closed && j < IDLE_ADDR && name != 0
    ensures var d := t.daemons[i];
      && d.since <= d.rx <= |t.log| && |d.names| == IDLE_ADDR
      && (d.names[j] == name <==> Owns(t.log, d.since, d.rx, name, j))
  {
    RunKeepsTables(s, steps, limit, t);
    assert TableInv(t.daemons[i], t.log);
    TableShowsOwners(t.log, t.daemons[i].since, t.daemons[i].rx);
  }
}
