/**
 * Whole runs of the echo test: a lossless bus in one order, on which the
 * device under test answers each frame after it, with an identifier of its
 * own or with that of the generator.
 */
module EchoBus {
  import opened EchoTest

  /** The frames with an id among the first k. */
  function Count(log: seq<Frame>, id: nat, k: nat): (c: nat)
    requires k <= |log|
    ensures c <= k
    decreases k, id
  {
    if k == 0 then 0 else Count(log, id, k - 1) + if log[k - 1].id == id then 1 else 0
  }

  /** Frame i is the next frame of the generator, or the next echo of a frame already on the bus. */
  predicate InOrder(log: seq<Frame>, ping: nat, pong: nat, i: nat)
    requires i < |log|
  {
    var p := Count(log, ping, i);
    log[i] == Ping(ping, p) || (log[i] == Echo(ping, pong, i - p) && i - p < p)
  }

  ghost predicate Lossless(log: seq<Frame>, ping: nat, pong: nat) {
    forall i :: 0 <= i < |log| ==> InOrder(log, ping, pong, i)
  }

  lemma {:induction false} CountPrefix(log: seq<Frame>, f: Frame, id: nat, k: nat)
    requires k <= |log|
    ensures Count(log + [f], id, k) == Count(log, id, k)
    decreases k
  {
    if k > 0 {
      CountPrefix(log, f, id, k - 1);
    }
  }

  lemma {:induction false} CountGrows(log: seq<Frame>, id: nat, j: nat, k: nat)
    requires j <= k <= |log|
    ensures Count(log, id, j) <= Count(log, id, k) <= Count(log, id, j) + (k - j)
    decreases k
  {
    if j < k {
      CountGrows(log, id, j, k - 1);
    }
  }

  /** A frame in order keeps the bus in order. */
  lemma BusGrows(log: seq<Frame>, f: Frame, ping: nat, pong: nat)
    requires Lossless(log, ping, pong)
    requires var p := Count(log, ping, |log|);
      f == Ping(ping, p) || (f == Echo(ping, pong, |log| - p) && |log| - p < p)
    ensures Lossless(log + [f], ping, pong)
    ensures Count(log + [f], ping, |log| + 1) == Count(log, ping, |log|) + if f.id == ping then 1 else 0
  {
    forall i | 0 <= i < |log| + 1 ensures InOrder(log + [f], ping, pong, i) {
      CountPrefix(log, f, ping, i);
      if i < |log| {
        assert InOrder(log, ping, pong, i);
      }
    }
    CountPrefix(log, f, ping, |log|);
  }

  /** The generator has taken in the first pos frames, and sent all that are on the bus. */
  ghost predicate InStep(g: Generator, log: seq<Frame>, pos: nat)
    reads g, g.tx, g.recvTx
  {
    && g.Valid() && g.ping != g.pong && g.running && !g.mismatch && !g.rxBeforeTx
    && Lossless(log, g.ping, g.pong) && pos <= |log|
    && g.heard == Count(log, g.ping, pos) && g.answered == pos - g.heard
    && Count(log, g.ping, |log|) <= g.sent && (g.testLoops != 0 ==> g.answered < g.testLoops)
  }

  /** The next frame is one the generator waits for. */
  lemma NextIsExpected(g: Generator, log: seq<Frame>, pos: nat)
    requires InStep(g, log, pos) && pos < |log|
    ensures log[pos].id == g.ping ==> g.heard < g.sent && log[pos] == Ping(g.ping, g.heard)
    ensures log[pos].id != g.ping ==> g.answered < g.heard && log[pos] == Echo(g.ping, g.pong, g.answered)
  {
    assert InOrder(log, g.ping, g.pong, pos);
    CountGrows(log, g.ping, pos + 1, |log|);
  }

  /** The generator takes in the next frame without a complaint. */
  method Receive(g: Generator, log: seq<Frame>, pos: nat) returns (stop: bool)
    requires InStep(g, log, pos) && pos < |log| && g.unprocessed == g.n
    modifies g, g.recvTx
    ensures !stop ==> InStep(g, log, pos + 1) && g.sent == old(g.sent)
    ensures stop ==> g.testLoops != 0 && g.loops == g.testLoops
    ensures g.running && !g.mismatch && !g.rxBeforeTx
  {
    NextIsExpected(g, log, pos);
    if log[pos].id == g.ping {
      g.ExpectsNext();
      g.ReceiveOwn(log[pos]);
      stop := false;
    } else {
      stop := g.ReceiveEcho(log[pos]);
    }
  }

  /** All three parties: what was sent, what is on the bus, and how many frames and echoes that is. */
  ghost predicate World(g: Generator, queue: seq<Frame>, log: seq<Frame>, pos: nat, onBus: nat, echoed: nat)
    reads g, g.tx, g.recvTx
  {
    && InStep(g, log, pos)
    && |queue| == g.sent && (forall k :: 0 <= k < |queue| ==> queue[k] == Ping(g.ping, k))
    && onBus == Count(log, g.ping, |log|) && echoed == |log| - onBus && echoed <= onBus
  }

  /** A frame sent reaches the bus. */
  lemma BusKeeps(g: Generator, queue: seq<Frame>, log: seq<Frame>, pos: nat, onBus: nat, echoed: nat)
    requires World(g, queue, log, pos, onBus, echoed) && onBus < |queue|
    ensures World(g, queue, log + [queue[onBus]], pos, onBus + 1, echoed)
  {
    BusGrows(log, queue[onBus], g.ping, g.pong);
    CountPrefix(log, queue[onBus], g.ping, pos);
  }

  /** So does the echo of a frame on the bus. */
  lemma DeviceKeeps(g: Generator, queue: seq<Frame>, log: seq<Frame>, pos: nat, onBus: nat, echoed: nat, f: Frame)
    requires World(g, queue, log, pos, onBus, echoed) && echoed < onBus && f == Echo(g.ping, g.pong, echoed)
    ensures World(g, queue, log + [f], pos, onBus, echoed + 1)
  {
    BusGrows(log, f, g.ping, g.pong);
    CountPrefix(log, f, g.ping, pos);
  }

  /** One turn of the generator's loop; it waits when nothing can be received. */
  method Turns(g: Generator, queue: seq<Frame>, log: seq<Frame>, pos: nat, ghost onBus: nat, ghost echoed: nat)
    returns (queue': seq<Frame>, pos': nat, stop: bool)
    requires World(g, queue, log, pos, onBus, echoed)
    modifies g, g.tx, g.recvTx
    ensures if stop then g.testLoops != 0 && g.loops == g.testLoops else World(g, queue', log, pos', onBus, echoed)
    ensures g.running && !g.mismatch && !g.rxBeforeTx
    ensures Advances(old(g.unprocessed) < g.n, queue, pos, |log|, queue', pos')
  {
    queue', pos', stop := queue, pos, false;
    if g.unprocessed < g.n {
      var f := g.Send();
      queue' := queue + [f];
    } else if pos < |log| {
      stop := Receive(g, log, pos);
      pos' := pos + 1;
    }
  }

  /** The generator sends the next frame, or takes in the next one on the bus, or has to wait. */
  predicate Advances(sends: bool, queue: seq<Frame>, pos: nat, size: nat, queue': seq<Frame>, pos': nat) {
    if sends then |queue'| == |queue| + 1 && pos' == pos
    else |queue'| == |queue| && pos' == if pos < size then pos + 1 else pos
  }

  // ---- One identifier for both directions ----

  /** The echo of a frame is then the generator's next frame, so that it may pass for an own one. */
  lemma EchoIsNextPing(id: nat, k: nat)
    ensures Echo(id, id, k) == Ping(id, k + 1)
  {
    var e, p := Echo(id, id, k).data, Ping(id, k + 1).data;
    forall i | 0 <= i < MSG_LEN ensures e[i] == p[i] {
      NextOctet(k + i);
    }
    assert e == p;
  }

  lemma PingsDiffer(id: nat, k: nat)
    ensures Ping(id, k) != Ping(id, k + 1)
  {
    assert Ping(id, k).data[0] != Ping(id, k + 1).data[0];
  }

  /**
   * All frames count as own ones, so that only the first n are ever sent; the
   * 2n-th and last on the bus is the last echo.
   */
  ghost predicate SharedWorld(g: Generator, queue: seq<Frame>, log: seq<Frame>, pos: nat, onBus: nat, echoed: nat)
    reads g, g.tx, g.recvTx
  {
    && g.n > 0 && g.ping == g.pong && g.Shape() && g.loops == 0 && !g.rxBeforeTx && g.running == !g.mismatch
    && |queue| == g.unprocessed && echoed <= onBus <= |queue| <= g.n && |log| == onBus + echoed && pos <= |log|
    && (forall k :: 0 <= k < |queue| ==> queue[k] == Ping(g.ping, k))
    && (forall i :: 0 <= i < |log| ==> log[i].id == g.ping)
    && (echoed == g.n ==> log[|log| - 1] == Echo(g.ping, g.ping, g.n - 1))
    && (pos == 0 ==> Filling(g, |queue|))
    && (pos > 0 ==> |queue| == g.n && Filled(g, pos))
    && (pos == 2 * g.n ==> g.mismatch)
  }

  ghost predicate Filling(g: Generator, size: nat)
    reads g, g.tx, g.recvTx
  {
    g.Valid() && g.sent == size && g.heard == g.answered == 0
  }

  ghost predicate Filled(g: Generator, pos: nat)
    requires g.n > 0 && g.Shape()
    reads g, g.tx
  {
    g.recvTxPos == Slot(g.n, pos) && forall k :: 0 <= k < g.n ==> g.tx[k] == Ping(g.ping, k)
  }

  /** The first n frames stand in the first n slots. */
  lemma RingFilled(g: Generator)
    requires Filling(g, g.n)
    ensures Filled(g, 0)
  {
    forall k | 0 <= k < g.n ensures g.tx[k] == Ping(g.ping, k) {
      SlotApart(g.n, 0, k);
      assert InSlot(g.n, g.ping, g.tx[..], g.recvTx[..], 0, k);
    }
  }

  /** The last echo is compared with the last frame sent. */
  lemma LastFails(g: Generator)
    requires g.n > 0 && g.Shape() && Filled(g, 2 * g.n - 1)
    ensures Shifted(g.tx[g.recvTxPos], g.ping, 0) != Echo(g.ping, g.ping, g.n - 1)
  {
    SlotApart(g.n, 0, g.n - 1);
    SlotApart(g.n, g.n - 1, 2 * g.n - 1);
    PingUnshifted(g.ping, g.n - 1);
    EchoIsNextPing(g.ping, g.n - 1);
    PingsDiffer(g.ping, g.n - 1);
  }

  method SharedTurns(g: Generator, queue: seq<Frame>, log: seq<Frame>, pos: nat, ghost onBus: nat, ghost echoed: nat)
    returns (queue': seq<Frame>, pos': nat)
    requires SharedWorld(g, queue, log, pos, onBus, echoed) && g.running
    modifies g, g.tx, g.recvTx
    ensures SharedWorld(g, queue', log, pos', onBus, echoed)
    ensures Advances(old(g.unprocessed) < g.n, queue, pos, |log|, queue', pos')
  {
    queue', pos' := queue, pos;
    if g.unprocessed < g.n {
      var f := g.Send();
      queue' := queue + [f];
    } else if pos < |log| {
      if pos == 0 {
        RingFilled(g);
      }
      if pos == 2 * g.n - 1 {
        LastFails(g);
      }
      g.ReceiveOwn(log[pos]);
      pos' := pos + 1;
    }
  }

  // ---- Whole runs ----

  datatype Turn = GeneratorTurn | BusTurn | DeviceTurn

  ghost predicate AnyWorld(g: Generator, queue: seq<Frame>, log: seq<Frame>, pos: nat, onBus: nat, echoed: nat)
    reads g, g.tx, g.recvTx
  {
    if g.ping == g.pong then SharedWorld(g, queue, log, pos, onBus, echoed)
    else World(g, queue, log, pos, onBus, echoed)
  }

  lemma BusStep(g: Generator, queue: seq<Frame>, log: seq<Frame>, pos: nat, onBus: nat, echoed: nat)
    requires AnyWorld(g, queue, log, pos, onBus, echoed) && onBus < |queue|
    ensures AnyWorld(g, queue, log + [queue[onBus]], pos, onBus + 1, echoed)
  {
    if g.ping != g.pong {
      BusKeeps(g, queue, log, pos, onBus, echoed);
    }
  }

  lemma DeviceStep(g: Generator, queue: seq<Frame>, log: seq<Frame>, pos: nat, onBus: nat, echoed: nat, f: Frame)
    requires AnyWorld(g, queue, log, pos, onBus, echoed) && echoed < onBus && f == Echo(g.ping, g.pong, echoed)
    ensures AnyWorld(g, queue, log + [f], pos, onBus, echoed + 1)
  {
    if g.ping != g.pong {
      DeviceKeeps(g, queue, log, pos, onBus, echoed, f);
    }
  }

  method GeneratorStep(g: Generator, queue: seq<Frame>, log: seq<Frame>, pos: nat, ghost onBus: nat, ghost echoed: nat)
    returns (queue': seq<Frame>, pos': nat, stop: bool)
    requires AnyWorld(g, queue, log, pos, onBus, echoed) && g.running
    modifies g, g.tx, g.recvTx
    ensures stop ==> g.ping != g.pong && g.testLoops != 0 && g.loops == g.testLoops
    ensures stop ==> g.running && !g.mismatch && !g.rxBeforeTx
    ensures !stop ==> AnyWorld(g, queue', log, pos', onBus, echoed)
    ensures Advances(old(g.unprocessed) < g.n, queue, pos, |log|, queue', pos')
  {
    if g.ping == g.pong {
      queue', pos' := SharedTurns(g, queue, log, pos, onBus, echoed);
      stop := false;
    } else {
      queue', pos', stop := Turns(g, queue, log, pos, onBus, echoed);
    }
  }

  /** While the test runs, some party can make its next move: nobody waits for nobody. */
  lemma NoDeadlock(g: Generator, queue: seq<Frame>, log: seq<Frame>, pos: nat, onBus: nat, echoed: nat)
    requires AnyWorld(g, queue, log, pos, onBus, echoed) && g.running
    ensures g.unprocessed < g.n || pos < |log| || onBus < |queue| || echoed < onBus
  {
  }

  /**
   * The test under any schedule of the three parties, with any number of
   * frames in flight. The device under test never finds a frame unexpected. With two identifiers it never complains, and ends after
   * the wanted number of echoes. With one it has complained at the latest when
   * the n frames and their n echoes are taken in, in whatever order they came.
   */
  method Test(n: nat, ping: nat, hasPong: bool, pong: nat, testLoops: nat, schedule: seq<Turn>)
    returns (mismatch: bool, rxBeforeTx: bool, unexpected: bool, ended: bool, loops: nat, taken: nat)
    requires n > 0
    ensures !rxBeforeTx && !unexpected && (mismatch ==> hasPong && pong == ping)
    ensures hasPong && pong == ping ==> loops == 0 && !ended && taken <= 2 * n && (taken == 2 * n ==> mismatch)
    ensures if ended then testLoops != 0 && loops == testLoops else testLoops != 0 ==> loops < testLoops
  {
    var g := new Generator(n, ping, if hasPong then pong else ping + 1, testLoops);
    var queue: seq<Frame>, log: seq<Frame>, onBus: nat, echoed: nat, pos: nat := [], [], 0, 0, 0;
    unexpected := false;
    for t := 0 to |schedule|
      invariant fresh(g) && fresh(g.tx) && fresh(g.recvTx) && AnyWorld(g, queue, log, pos, onBus, echoed)
      invariant g.n == n && g.ping == ping && g.pong == (if hasPong then pong else ping + 1) && g.testLoops == testLoops
      invariant !unexpected
    {
      match schedule[t] {
        case GeneratorTurn =>
          if g.running {
            queue, pos, ended := GeneratorStep(g, queue, log, pos, onBus, echoed);
            if ended { return g.mismatch, g.rxBeforeTx, unexpected, true, g.loops, pos; }
          }
        case BusTurn =>
          if onBus < |queue| {
            BusStep(g, queue, log, pos, onBus, echoed);
            log, onBus := log + [queue[onBus]], onBus + 1;
          }
        case DeviceTurn =>
          if echoed < onBus {
            var ok, f := EchoFrame(queue[echoed], ping, hasPong, pong, echoed);
            unexpected := unexpected || !ok;
            DeviceStep(g, queue, log, pos, onBus, echoed, f);
            log, echoed := log + [f], echoed + 1;
          }
      }
    }
    return g.mismatch, g.rxBeforeTx, unexpected, false, g.loops, pos;
  }

  /** How much of the run is behind it. */
  function Done(queue: seq<Frame>, pos: nat, onBus: nat, echoed: nat): nat {
    |queue| + onBus + echoed + pos
  }

  lemma DoneBounded(g: Generator, queue: seq<Frame>, log: seq<Frame>, pos: nat, onBus: nat, echoed: nat)
    requires AnyWorld(g, queue, log, pos, onBus, echoed) && g.testLoops > 0
    ensures Done(queue, pos, onBus, echoed) <= 5 * (g.testLoops + g.n)
  {
  }

  /** One move of some party that is able to; which one is left open. */
  method Move(g: Generator, hasPong: bool, queue: seq<Frame>, log: seq<Frame>, pos: nat, onBus: nat, echoed: nat)
    returns (queue': seq<Frame>, log': seq<Frame>, pos': nat, onBus': nat, echoed': nat, stop: bool)
    requires AnyWorld(g, queue, log, pos, onBus, echoed) && g.running && (!hasPong ==> g.pong == g.ping + 1)
    modifies g, g.tx, g.recvTx
    ensures stop ==> g.ping != g.pong && g.loops == g.testLoops && g.running && !g.mismatch && !g.rxBeforeTx
    ensures !stop ==> AnyWorld(g, queue', log', pos', onBus', echoed')
    ensures Done(queue', pos', onBus', echoed') == Done(queue, pos, onBus, echoed) + 1
  {
    queue', log', pos', onBus', echoed', stop := queue, log, pos, onBus, echoed, false;
    NoDeadlock(g, queue, log, pos, onBus, echoed);
    if {
      case g.unprocessed < g.n || pos < |log| =>
        queue', pos', stop := GeneratorStep(g, queue, log, pos, onBus, echoed);
      case onBus < |queue| =>
        BusStep(g, queue, log, pos, onBus, echoed);
        log', onBus' := log + [queue[onBus]], onBus + 1;
      case echoed < onBus =>
        var _, f := EchoFrame(queue[echoed], g.ping, hasPong, g.pong, echoed);
        DeviceStep(g, queue, log, pos, onBus, echoed, f);
        log', echoed' := log + [f], echoed + 1;
    }
  }

  /**
   * As long as whoever moves next is able to, in whatever order, the test
   * comes to its end: with a complaint if and only if the two directions share
   * an identifier, and otherwise after the wanted number of echoes.
   */
  method Complete(n: nat, ping: nat, hasPong: bool, pong: nat, testLoops: nat)
    returns (mismatch: bool, rxBeforeTx: bool, loops: nat)
    requires n > 0 && testLoops > 0
    ensures mismatch <==> hasPong && pong == ping
    ensures !rxBeforeTx && loops == if mismatch then 0 else testLoops
  {
    var g := new Generator(n, ping, if hasPong then pong else ping + 1, testLoops);
    var queue: seq<Frame>, log: seq<Frame>, onBus: nat, echoed: nat, pos: nat := [], [], 0, 0, 0;
    var ended := false;
    while !ended && g.running
      invariant fresh(g) && fresh(g.tx) && fresh(g.recvTx)
      invariant g.n == n && g.ping == ping && g.pong == (if hasPong then pong else ping + 1) && g.testLoops == testLoops
      invariant !ended ==> AnyWorld(g, queue, log, pos, onBus, echoed)
      invariant ended ==> g.ping != g.pong && g.loops == testLoops && !g.mismatch && !g.rxBeforeTx
      decreases !ended, 5 * (testLoops + n) - Done(queue, pos, onBus, echoed)
    {
      DoneBounded(g, queue, log, pos, onBus, echoed);
      queue, log, pos, onBus, echoed, ended := Move(g, hasPong, queue, log, pos, onBus, echoed);
      if !ended {
        DoneBounded(g, queue, log, pos, onBus, echoed);
      }
    }
    return g.mismatch, g.rxBeforeTx, g.loops;
  }
}
