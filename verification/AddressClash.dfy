/**
 * The one way in which two daemons come to hold the same address: a command to
 * move to an address that no node can hold, while a defence is still unsent.
 */
module AddressClash {
  import opened AddressClaim

  /** Over every run, settled daemons hold different addresses. */
  ghost predicate AlwaysSafe(limit: nat) {
    forall s, steps, t, i: nat, j: nat ::
      Start(s) && Reaches(s, steps, limit, t) && Settled(t, i) && Settled(t, j) && i != j
      ==> t.daemons[i].current != t.daemons[j].current
  }

  ghost predicate Reachable(s: System, limit: nat, t: System) {
    exists steps :: Reaches(s, steps, limit, t)
  }

  lemma {:induction false} ReachesSnoc(s: System, steps: seq<Step>, limit: nat, t: System, step: Step)
    requires Reaches(s, steps, limit, t) && SystemOk(t) && Enabled(t, step, limit)
    ensures Reaches(s, steps + [step], limit, Next(t, step, limit))
    decreases |steps|
  {
    if steps == [] {
      assert steps + [step] == [step] && [step][1..] == [];
    } else {
      ReachesSnoc(Next(s, steps[0], limit), steps[1..], limit, t, step);
      assert (steps + [step])[1..] == steps[1..] + [step];
    }
  }

  lemma Go(s: System, limit: nat, t: System, step: Step) returns (u: System)
    requires Reachable(s, limit, t) && SystemOk(t) && Enabled(t, step, limit)
    ensures u == Next(t, step, limit) && Reachable(s, limit, u)
  {
    u := Next(t, step, limit);
    var steps :| Reaches(s, steps, limit, t);
    ReachesSnoc(s, steps, limit, t, step);
  }

  /** A fresh daemon that may use every address and first tries 128. */
  function Fresh(name: nat): Daemon {
    Daemon(name, seq(IDLE_ADDR, i => true), seq(IDLE_ADDR, i => 0), 128, NO_ADDR, Closed, false, true, 0, 0, false)
  }

  /** Daemon d runs under NAME n with the given fields; its table is left open. */
  predicate Looks(d: Daemon, n: nat, current: nat, state: State, bound: nat, alarm: bool, rx: nat, seen: bool) {
    && WellFormed(d) && d.name == n && d.current == current && d.running
    && d.state == state && d.bound == bound && d.alarm == alarm && d.rx == rx && d.seen == seen
  }

  /** With address 128. */
  predicate Is(d: Daemon, n: nat, state: State, bound: nat, alarm: bool, rx: nat, seen: bool) {
    Looks(d, n, 128, state, bound, alarm, rx, seen)
  }

  /** Daemon d may take address 128. */
  predicate May128(d: Daemon) {
    WellFormed(d) && d.use[128] && d.names[128] == 0
  }

  predicate Two(t: System) {
    |t.daemons| == 2
  }

  /** From opening its socket a daemon comes to hold address 128. */
  lemma Claims128(s: System, limit: nat, t0: System, i: nat) returns (t: System)
    requires Reachable(s, limit, t0) && SystemOk(t0) && Two(t0) && i < 2
    requires Is(t0.daemons[i], t0.daemons[i].name, Closed, NO_ADDR, false, 0, false) && May128(t0.daemons[i])
    ensures Reachable(s, limit, t) && SystemOk(t) && Two(t) && t.daemons[1 - i] == t0.daemons[1 - i]
    ensures t.log == t0.log + [Request, Claim(t0.daemons[i].name, 128)]
    ensures Is(t.daemons[i], t0.daemons[i].name, Operational, 128, false, |t.log|, true)
  {
    var n := t0.daemons[i].name;
    t := Go(s, limit, t0, Open(i));
    t := Go(s, limit, t, Awake(i, true));
    assert Is(t.daemons[i], n, ReqSent, NO_ADDR, false, |t0.log|, false) && May128(t.daemons[i]);
    t := Go(s, limit, t, Deliver(i, true));
    assert Is(t.daemons[i], n, ReqPending, NO_ADDR, true, |t0.log| + 1, false) && May128(t.daemons[i]);
    t := Claims128Now(s, limit, t, i);
    assert t.log == t0.log + [Request, Claim(n, 128)];
  }

  lemma Claims128Now(s: System, limit: nat, t0: System, i: nat) returns (t: System)
    requires Reachable(s, limit, t0) && SystemOk(t0) && Two(t0) && i < 2
    requires Is(t0.daemons[i], t0.daemons[i].name, ReqPending, NO_ADDR, true, |t0.log|, false) && May128(t0.daemons[i])
    ensures Reachable(s, limit, t) && SystemOk(t) && Two(t) && t.daemons[1 - i] == t0.daemons[1 - i]
    ensures t.log == t0.log + [Claim(t0.daemons[i].name, 128)]
    ensures Is(t.daemons[i], t0.daemons[i].name, Operational, 128, false, |t.log|, true)
  {
    var n := t0.daemons[i].name;
    assert Free(t0.daemons[i], 128);
    t := Go(s, limit, t0, Awake(i, true));
    assert Is(t.daemons[i], n, Operational, 128, false, |t0.log|, false);
    t := Go(s, limit, t, Deliver(i, true));
  }

  /** Daemon 0 fails to send its defence. */
  lemma Deaf(s: System, limit: nat, t0: System) returns (t: System)
    requires Reachable(s, limit, t0) && SystemOk(t0) && Two(t0) && |t0.log| == 4
    requires t0.log[2] == Request && t0.log[3] == Claim(2, 128)
    requires Is(t0.daemons[0], 1, Operational, 128, false, 2, true)
    ensures Reachable(s, limit, t) && SystemOk(t) && Two(t) && t.daemons[1] == t0.daemons[1] && t.log == t0.log
    ensures Is(t.daemons[0], 1, Operational, 128, true, 4, true)
  {
    t := Go(s, limit, t0, Deliver(0, false));
    assert Is(t.daemons[0], 1, Operational, 128, true, 3, true);
    t := Go(s, limit, t, Deliver(0, false));
  }

  /** It is then commanded to give up its address. */
  lemma GivesUp(s: System, limit: nat, t0: System) returns (t: System)
    requires limit > IDLE_ADDR && Reachable(s, limit, t0) && SystemOk(t0) && Two(t0) && |t0.log| == 4
    requires Is(t0.daemons[0], 1, Operational, 128, true, 4, true)
    ensures Reachable(s, limit, t) && SystemOk(t) && Two(t) && t.daemons[1] == t0.daemons[1]
    ensures t.log == t0.log + [Commanded(1, IDLE_ADDR), Claim(1, IDLE_ADDR)]
    ensures Is(t.daemons[0], 1, Operational, IDLE_ADDR, true, 5, true)
  {
    t := Go(s, limit, t0, Foreign(Commanded(1, IDLE_ADDR)));
    t := Go(s, limit, t, Deliver(0, true));
  }

  /** A settled daemon hears something that does not concern it. */
  lemma Hear(s: System, limit: nat, t0: System, i: nat, bound: nat) returns (t: System)
    requires Reachable(s, limit, t0) && SystemOk(t0) && Two(t0) && i < 2 && t0.daemons[i].rx < |t0.log|
    requires Is(t0.daemons[i], i + 1, Operational, bound, false, t0.daemons[i].rx, true)
    requires var f := t0.log[t0.daemons[i].rx];
      f == Claim(1, IDLE_ADDR) || (f.Commanded? && f.name != i + 1)
    ensures Reachable(s, limit, t) && SystemOk(t) && Two(t) && t.daemons[1 - i] == t0.daemons[1 - i] && t.log == t0.log
    ensures Is(t.daemons[i], i + 1, Operational, bound, false, t0.daemons[i].rx + 1, true)
  {
    t := Go(s, limit, t0, Deliver(i, true));
  }

  /** The retry goes out for the address given up. */
  lemma Retry(s: System, limit: nat, t0: System) returns (t: System)
    requires Reachable(s, limit, t0) && SystemOk(t0) && Two(t0) && |t0.log| == 6
    requires t0.log[4] == Commanded(1, IDLE_ADDR) && t0.log[5] == Claim(1, IDLE_ADDR)
    requires Is(t0.daemons[0], 1, Operational, IDLE_ADDR, true, 5, true)
    ensures Reachable(s, limit, t) && SystemOk(t) && Two(t) && t.daemons[1] == t0.daemons[1]
    ensures t.log == t0.log + [Claim(1, IDLE_ADDR)]
    ensures Is(t.daemons[0], 1, Operational, IDLE_ADDR, false, 7, true)
  {
    t := Go(s, limit, t0, Awake(0, true));
    t := Hear(s, limit, t, 0, IDLE_ADDR);
    t := Hear(s, limit, t, 0, IDLE_ADDR);
  }

  /** The other daemon hears all of it. */
  lemma Hears(s: System, limit: nat, t0: System) returns (t: System)
    requires Reachable(s, limit, t0) && SystemOk(t0) && Two(t0) && |t0.log| == 7
    requires t0.log[4] == Commanded(1, IDLE_ADDR) && t0.log[5] == Claim(1, IDLE_ADDR) == t0.log[6]
    requires Is(t0.daemons[1], 2, Operational, 128, false, 4, true)
    ensures Reachable(s, limit, t) && Two(t) && t.daemons[0] == t0.daemons[0] && t.log == t0.log
    ensures Is(t.daemons[1], 2, Operational, 128, false, 7, true)
  {
    t := Hear(s, limit, t0, 1, 128);
    t := Hear(s, limit, t, 1, 128);
    t := Hear(s, limit, t, 1, 128);
  }

  lemma Beginning(limit: nat) returns (s: System)
    ensures Start(s) && Two(s) && SystemOk(s) && Reachable(s, limit, s)
    ensures Is(s.daemons[0], 1, Closed, NO_ADDR, false, 0, false) && May128(s.daemons[0])
    ensures Is(s.daemons[1], 2, Closed, NO_ADDR, false, 0, false) && May128(s.daemons[1])
  {
    s := System([Fresh(1), Fresh(2)], []);
    assert Reaches(s, [], limit, s);
  }

  /** With such commands allowed, two settled daemons can end up on one address. */
  lemma Clash(limit: nat) returns (s: System, t: System)
    requires limit > IDLE_ADDR
    ensures Start(s) && Reachable(s, limit, t) && Settled(t, 0) && Settled(t, 1)
    ensures t.daemons[0].current == t.daemons[1].current
  {
    s := Beginning(limit);
    t := Claims128(s, limit, s, 0);
    t := Claims128(s, limit, t, 1);
    t := Deaf(s, limit, t);
    t := GivesUp(s, limit, t);
    t := Retry(s, limit, t);
    t := Hears(s, limit, t);
  }

  /**
   * Settled daemons always hold different addresses if and only if address
   * commands name real addresses.
   */
  lemma SafeExactly(limit: nat)
    ensures AlwaysSafe(limit) <==> limit <= IDLE_ADDR
  {
    if limit <= IDLE_ADDR {
      forall s, steps, t, i: nat, j: nat
        | Start(s) && Reaches(s, steps, limit, t) && Settled(t, i) && Settled(t, j) && i != j
        ensures t.daemons[i].current != t.daemons[j].current
      {
        if t.daemons[i].current == t.daemons[j].current {
          NoTwoHolders(s, steps, limit, t, i, j);
        }
      }
    } else {
      var s, t := Clash(limit);
      var steps :| Reaches(s, steps, limit, t);
    }
  }
}
