/**
 * The full-duplex test of canfdtest.c: a generator keeps a ring of frames in
 * flight, hears its own frames and their incremented echoes, and complains
 * about anything out of place.
 */
module EchoTest {
  const MSG_LEN: nat := 8

  datatype Frame = Frame(id: nat, data: seq<nat>)

  /** The k-th frame of the generator. */
  function Ping(id: nat, k: nat): (f: Frame)
    ensures |f.data| == MSG_LEN
  {
    Frame(id, seq(MSG_LEN, i requires 0 <= i => (k + i) % 256))
  }

  /** What is expected for a sent frame: itself, or with id and octets moved on by an echo. */
  function Shifted(f: Frame, id: nat, inc: nat): Frame {
    Frame(id, seq(|f.data|, i requires 0 <= i < |f.data| => (f.data[i] + inc) % 256))
  }

  function Echo(ping: nat, pong: nat, k: nat): Frame {
    Shifted(Ping(ping, k), pong, 1)
  }

  /** The next octet, and the octet of the next number. */
  lemma NextOctet(x: nat)
    ensures (x % 256 + 1) % 256 == (x + 1) % 256
  {
  }

  // ---- Ring positions ----

  /** The cursor after k steps round a ring of n slots. */
  function Slot(n: nat, k: nat): (p: nat)
    requires n > 0
    ensures p < n
    decreases k, n
  {
    if k == 0 then 0 else if Slot(n, k - 1) + 1 == n then 0 else Slot(n, k - 1) + 1
  }

  /** Fewer than n steps apart, two cursors differ by the steps or by a lap less. */
  lemma {:induction false} SlotApart(n: nat, k: nat, j: nat)
    requires n > 0 && k <= j <= k + n
    ensures Slot(n, j) == Slot(n, k) + (j - k) || Slot(n, j) == Slot(n, k) + (j - k) - n
    ensures j == k + n ==> Slot(n, j) == Slot(n, k)
    decreases j
  {
    if k < j {
      SlotApart(n, k, j - 1);
    }
  }

  lemma SlotsDiffer(n: nat, k: nat, j: nat)
    requires n > 0 && k < j < k + n
    ensures Slot(n, k) != Slot(n, j)
  {
    SlotApart(n, k, j);
  }

  /** After q laps and r steps the cursor stands at r. */
  lemma {:induction false} SlotAfterLaps(n: nat, k: nat, q: nat, r: nat)
    requires r < n && k == q * n + r
    ensures Slot(n, k) == r
    decreases k
  {
    if r > 0 {
      SlotAfterLaps(n, k - 1, q, r - 1);
    } else if q > 0 {
      assert (q - 1) * n == q * n - n;
      SlotAfterLaps(n, k - 1, q - 1, n - 1);
    }
  }

  lemma SlotIsRemainder(n: nat, k: nat)
    requires n > 0
    ensures Slot(n, k) == k % n
  {
    SlotAfterLaps(n, k, k / n, k % n);
  }

  // ---- Comparing and echoing ----

  /** compare_frame() */
  method CompareFrame(exp: Frame, rec: Frame, id: nat, inc: nat) returns (ok: bool)
    ensures ok <==> rec == Shifted(exp, id, inc)
  {
    if rec.id != id { return false; }
    if |rec.data| != |exp.data| { return false; }
    ok := true;
    for i := 0 to |rec.data|
      invariant ok <==> forall j :: 0 <= j < i ==> rec.data[j] == (exp.data[j] + inc) % 256
    {
      if rec.data[i] != (exp.data[i] + inc) % 256 {
        ok := false;
      }
    }
    if ok {
      assert rec.data == Shifted(exp, id, inc).data;
    } else {
      var j :| 0 <= j < |rec.data| && rec.data[j] != (exp.data[j] + inc) % 256;
      assert rec.data[j] != Shifted(exp, id, inc).data[j];
    }
  }

  /** inc_frame(): the data in place, octet by octet. */
  method IncFrame(f: Frame, hasPong: bool, pong: nat) returns (r: Frame)
    ensures r == Shifted(f, if hasPong then pong else f.id + 1, 1)
  {
    var data := f.data;
    for i := 0 to |data|
      invariant |data| == |f.data|
      invariant forall j :: 0 <= j < i ==> data[j] == (f.data[j] + 1) % 256
      invariant forall j :: i <= j < |data| ==> data[j] == f.data[j]
    {
      data := data[i := (data[i] + 1) % 256];
    }
    r := Frame(if hasPong then pong else f.id + 1, data);
    assert r.data == Shifted(f, r.id, 1).data;
  }

  /** What the device under test expects of a frame: its id, its length, and octets that count up. */
  predicate CountsUp(f: Frame, ping: nat) {
    f.id == ping && |f.data| == MSG_LEN && forall i :: 1 <= i < MSG_LEN ==> f.data[i] == (f.data[i - 1] + 1) % 256
  }

  /** check_frame() */
  method CheckFrame(f: Frame, ping: nat) returns (ok: bool)
    ensures ok <==> CountsUp(f, ping)
  {
    ok := f.id == ping && |f.data| == MSG_LEN;
    var i := 1;
    while i < |f.data|
      invariant 1 <= i && (i <= |f.data| || |f.data| == 0)
      invariant ok <==> f.id == ping && |f.data| == MSG_LEN && forall j :: 1 <= j < i ==> f.data[j] == (f.data[j - 1] + 1) % 256
    {
      if f.data[i] != (f.data[i - 1] + 1) % 256 { return false; }
      i := i + 1;
    }
  }

  /** Of octets, exactly the frames of the generator count up. */
  lemma CountingIsPing(f: Frame, ping: nat)
    requires forall i :: 0 <= i < |f.data| ==> f.data[i] < 256
    ensures CountsUp(f, ping) <==> exists k :: f == Ping(ping, k)
  {
    if CountsUp(f, ping) {
      forall i | 0 <= i < MSG_LEN ensures f.data[i] == (f.data[0] + i) % 256 {
        CountedTo(f, ping, i);
      }
      assert f.data == Ping(ping, f.data[0]).data;
    }
    forall k | f == Ping(ping, k) ensures CountsUp(f, ping) {
      PingCountsUp(ping, k);
    }
  }

  lemma {:induction false} CountedTo(f: Frame, ping: nat, i: nat)
    requires CountsUp(f, ping) && f.data[0] < 256 && i < MSG_LEN
    ensures f.data[i] == (f.data[0] + i) % 256
  {
    if i > 0 {
      CountedTo(f, ping, i - 1);
      NextOctet(f.data[0] + i - 1);
    }
  }

  lemma PingCountsUp(ping: nat, k: nat)
    ensures CountsUp(Ping(ping, k), ping)
  {
    forall i | 1 <= i < MSG_LEN ensures Ping(ping, k).data[i] == (Ping(ping, k).data[i - 1] + 1) % 256 {
      NextOctet(k + i - 1);
    }
  }

  /** The device under test checks a frame of the generator, finds nothing wrong, and echoes it. */
  method EchoFrame(f: Frame, ping: nat, hasPong: bool, pong: nat, ghost k: nat) returns (ok: bool, r: Frame)
    requires f == Ping(ping, k)
    ensures ok && r == Shifted(f, if hasPong then pong else ping + 1, 1)
  {
    PingCountsUp(ping, k);
    ok := CheckFrame(f, ping);
    r := IncFrame(f, hasPong, pong);
  }

  /** A frame is itself. */
  lemma PingUnshifted(ping: nat, k: nat)
    ensures Shifted(Ping(ping, k), ping, 0) == Ping(ping, k)
  {
    assert Shifted(Ping(ping, k), ping, 0).data == Ping(ping, k).data;
  }

  /** compare_frame() for an echo, with the expected frame in its slot. */
  method CompareEcho(exp: Frame, rec: Frame, ping: nat, pong: nat, ghost k: nat) returns (ok: bool)
    requires exp == Ping(ping, k)
    ensures ok <==> rec == Echo(ping, pong, k)
  {
    ok := CompareFrame(exp, rec, pong, 1);
  }

  /** The generator's data loop. */
  method FillFrame(ping: nat, counter: nat, ghost k: nat) returns (f: Frame)
    requires counter == k % 256
    ensures f == Ping(ping, k)
  {
    var data := [];
    for i := 0 to MSG_LEN
      invariant |data| == i && forall j :: 0 <= j < i ==> data[j] == (k + j) % 256
    {
      data := data + [(counter + i) % 256];
    }
    f := Frame(ping, data);
    assert f.data == Ping(ping, k).data;
  }

  // ---- The ring ----

  /** The slot of frame k holds that frame, and whether it was heard. */
  predicate InSlot(n: nat, ping: nat, tx: seq<Frame>, recvTx: seq<bool>, heard: nat, k: nat)
    requires n > 0 && |tx| == n && |recvTx| == n
  {
    tx[Slot(n, k)] == Ping(ping, k) && recvTx[Slot(n, k)] == (k < heard)
  }

  /** No slot is reused before its echo has come. */
  ghost predicate Ring(n: nat, ping: nat, tx: seq<Frame>, recvTx: seq<bool>, answered: nat, heard: nat, sent: nat)
    requires n > 0 && |tx| == n && |recvTx| == n
  {
    && answered <= heard <= sent <= answered + n
    && forall k :: answered <= k < sent ==> InSlot(n, ping, tx, recvTx, heard, k)
  }

  lemma RingSend(n: nat, ping: nat, tx: seq<Frame>, recvTx: seq<bool>, answered: nat, heard: nat, sent: nat)
    requires n > 0 && |tx| == n && |recvTx| == n && Ring(n, ping, tx, recvTx, answered, heard, sent)
    requires sent < answered + n
    ensures Ring(n, ping, tx[Slot(n, sent) := Ping(ping, sent)], recvTx[Slot(n, sent) := false], answered, heard, sent + 1)
  {
    var tx', recvTx' := tx[Slot(n, sent) := Ping(ping, sent)], recvTx[Slot(n, sent) := false];
    forall k | answered <= k < sent + 1 ensures InSlot(n, ping, tx', recvTx', heard, k) {
      if k < sent {
        SlotsDiffer(n, k, sent);
        assert InSlot(n, ping, tx, recvTx, heard, k);
      }
    }
  }

  lemma RingHear(n: nat, ping: nat, tx: seq<Frame>, recvTx: seq<bool>, answered: nat, heard: nat, sent: nat)
    requires n > 0 && |tx| == n && |recvTx| == n && Ring(n, ping, tx, recvTx, answered, heard, sent) && heard < sent
    ensures Ring(n, ping, tx, recvTx[Slot(n, heard) := true], answered, heard + 1, sent)
  {
    var recvTx', heard' := recvTx[Slot(n, heard) := true], heard + 1;
    forall k | answered <= k < sent ensures InSlot(n, ping, tx, recvTx', heard', k) {
      assert InSlot(n, ping, tx, recvTx, heard, k);
      if k < heard {
        SlotsDiffer(n, k, heard);
      } else if heard < k {
        SlotsDiffer(n, heard, k);
      }
    }
  }

  lemma RingAnswer(n: nat, ping: nat, tx: seq<Frame>, recvTx: seq<bool>, answered: nat, heard: nat, sent: nat)
    requires n > 0 && |tx| == n && |recvTx| == n && Ring(n, ping, tx, recvTx, answered, heard, sent)
    ensures answered < heard ==> Ring(n, ping, tx, recvTx, answered + 1, heard, sent)
  {
  }

  /** With a full ring, the cursor past the last frame is back at the first one. */
  lemma RingFull(n: nat, ping: nat, tx: seq<Frame>, recvTx: seq<bool>, answered: nat, heard: nat, sent: nat)
    requires n > 0 && |tx| == n && |recvTx| == n && Ring(n, ping, tx, recvTx, answered, heard, sent)
    requires sent == answered + n
    ensures tx[Slot(n, heard)] == Ping(ping, if heard < sent then heard else answered)
    ensures tx[Slot(n, answered)] == Ping(ping, answered) && recvTx[Slot(n, answered)] == (answered < heard)
  {
    SlotApart(n, answered, sent);
    assert InSlot(n, ping, tx, recvTx, heard, answered);
    if heard < sent {
      assert InSlot(n, ping, tx, recvTx, heard, heard);
    }
  }

  // ---- The generator ----

  class Generator {
    const n: nat
    const ping: nat
    const pong: nat
    const testLoops: nat
    const tx: array<Frame>
    const recvTx: array<bool>
    var sendPos: nat
    var recvTxPos: nat
    var recvRxPos: nat
    var unprocessed: nat
    var counter: nat
    var loops: nat
    var running: bool
    var mismatch: bool
    var rxBeforeTx: bool
    /** How many frames were sent, heard and answered. */
    ghost var sent: nat
    ghost var heard: nat
    ghost var answered: nat

    /** The cursors count frames round the ring. */
    ghost predicate Valid()
      reads this, tx, recvTx
    {
      && n > 0 && tx.Length == n && recvTx.Length == n
      && sendPos == Slot(n, sent) && recvTxPos == Slot(n, heard) && recvRxPos == Slot(n, answered)
      && unprocessed == sent - answered && counter == sent % 256 && loops == answered
      && Ring(n, ping, tx[..], recvTx[..], answered, heard, sent)
    }

    constructor (n: nat, ping: nat, pong: nat, testLoops: nat)
      requires n > 0
      ensures Valid() && fresh(tx) && fresh(recvTx) && running && !mismatch && !rxBeforeTx
      ensures sent == heard == answered == 0 && this.n == n && this.ping == ping && this.pong == pong
      ensures this.testLoops == testLoops
    {
      this.n, this.ping, this.pong, this.testLoops := n, ping, pong, testLoops;
      tx := new Frame[n](i => Frame(0, []));
      recvTx := new bool[n](i => false);
      sendPos, recvTxPos, recvRxPos, unprocessed, counter, loops := 0, 0, 0, 0, 0, 0;
      running, mismatch, rxBeforeTx := true, false, false;
      sent, heard, answered := 0, 0, 0;
    }

    /** One turn of the loop while fewer than n frames are in flight. */
    method Send() returns (f: Frame)
      requires Valid() && unprocessed < n
      modifies this`sendPos, this`unprocessed, this`counter, this`sent, tx, recvTx
      ensures Valid() && f == Ping(ping, old(sent)) && sent == old(sent) + 1
    {
      f := FillFrame(ping, counter, sent);
      ghost var frames, flags := tx[..], recvTx[..];
      RingSend(n, ping, frames, flags, answered, heard, sent);
      tx[sendPos] := f;
      recvTx[sendPos] := false;
      assert tx[..] == frames[sendPos := f] && recvTx[..] == flags[sendPos := false];
      sendPos := if sendPos + 1 == n then 0 else sendPos + 1;
      unprocessed := unprocessed + 1;
      NextOctet(sent);
      counter := (counter + 1) % 256;
      sent := sent + 1;
    }

    /** Own frames are expected in the order sent; after the last one the ring has come round. */
    ghost function NextHeard(): nat
      reads this
    {
      if heard < sent then heard else answered
    }

    /** All that receiving an own frame relies on. */
    predicate Shape()
      reads this
    {
      tx.Length == n && recvTx.Length == n && recvTxPos < n
    }

    method CheckOwn(f: Frame)
      requires Shape()
      modifies this`running, this`mismatch
      ensures mismatch == (old(mismatch) || f != Shifted(tx[recvTxPos], ping, 0))
      ensures running == (old(running) && f == Shifted(tx[recvTxPos], ping, 0))
    {
      var ok := CompareFrame(tx[recvTxPos], f, ping, 0);
      if !ok {
        mismatch, running := true, false;
      }
    }

    /** The frame that receiving an own frame expects. */
    lemma ExpectsNext()
      requires Valid() && unprocessed == n
      ensures Shape() && Shifted(tx[recvTxPos], ping, 0) == Ping(ping, NextHeard())
    {
      RingFull(n, ping, tx[..], recvTx[..], answered, heard, sent);
      PingUnshifted(ping, NextHeard());
    }

    /**
     * An own frame has been received: it is compared with the one in its slot,
     * whatever was heard before.
     */
    method ReceiveOwn(f: Frame)
      requires Shape()
      modifies this`recvTxPos, this`running, this`mismatch, this`heard, recvTx
      ensures mismatch == (old(mismatch) || f != Shifted(tx[old(recvTxPos)], ping, 0))
      ensures running == (old(running) && f == Shifted(tx[old(recvTxPos)], ping, 0))
      ensures Shape() && recvTxPos == (if old(recvTxPos) + 1 == n then 0 else old(recvTxPos) + 1)
      ensures old(Valid()) && old(heard) < sent ==> Valid() && heard == old(heard) + 1
    {
      CheckOwn(f);
      ghost var frames, flags := tx[..], recvTx[..];
      if old(Valid()) && heard < sent {
        RingHear(n, ping, frames, flags, answered, heard, sent);
      }
      recvTx[recvTxPos] := true;
      assert recvTx[..] == flags[recvTxPos := true];
      recvTxPos := if recvTxPos + 1 == n then 0 else recvTxPos + 1;
      heard := heard + 1;
    }

    method CheckEcho(f: Frame)
      requires Valid() && unprocessed == n
      modifies this`running, this`mismatch, this`rxBeforeTx
      ensures rxBeforeTx == (old(rxBeforeTx) || answered >= heard)
      ensures mismatch == (old(mismatch) || f != Echo(ping, pong, answered))
      ensures running == (old(running) && answered < heard && f == Echo(ping, pong, answered))
    {
      RingFull(n, ping, tx[..], recvTx[..], answered, heard, sent);
      if !recvTx[recvRxPos] {
        rxBeforeTx, running := true, false;
      }
      var ok := CompareEcho(tx[recvRxPos], f, ping, pong, answered);
      if !ok {
        mismatch, running := true, false;
      }
    }

    /** A frame of the device under test has been received. */
    method ReceiveEcho(f: Frame) returns (stop: bool)
      requires Valid() && unprocessed == n
      modifies this`recvRxPos, this`running, this`mismatch, this`rxBeforeTx, this`loops, this`unprocessed, this`answered
      ensures rxBeforeTx == (old(rxBeforeTx) || old(answered) >= heard)
      ensures mismatch == (old(mismatch) || f != Echo(ping, pong, old(answered)))
      ensures running == (old(running) && old(answered) < heard && f == Echo(ping, pong, old(answered)))
      ensures stop == (testLoops != 0 && old(answered) + 1 >= testLoops)
      ensures stop ==> loops == old(answered) + 1
      ensures !stop && old(answered) < heard ==> Valid() && answered == old(answered) + 1
    {
      CheckEcho(f);
      RingAnswer(n, ping, tx[..], recvTx[..], answered, heard, sent);
      recvRxPos := if recvRxPos + 1 == n then 0 else recvRxPos + 1;
      loops := loops + 1;
      if testLoops != 0 && loops >= testLoops { return true; }
      unprocessed, answered := unprocessed - 1, answered + 1;
      stop := false;
    }
  }
}
