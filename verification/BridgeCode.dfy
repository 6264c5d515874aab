/**
 * The bridge as it works: queue, cache and type register updated in place,
 * and the queue under concurrent use.
 */
module BridgeCode {
  import opened Bytes
  import opened Bridge

  class State {
    var queue: seq<Message>
    var cache: map<nat, Message>
    var types: map<nat, Type>
    const hash: seq<byte> -> int

    ghost function View(): World
      reads this
    {
      World(queue, cache, types)
    }

    constructor (hash: seq<byte> -> int)
      ensures View() == World([], map[], map[]) && this.hash == hash
    {
      this.hash := hash;
      queue, cache, types := [], map[], map[];
    }

    // ---- frame_send_queue ----

    /** enqueue_int16(): the low octet first. */
    method EnqueueInt16(id: nat, value: int, junk: array<byte>)
      requires junk.Length == MAX_DATA && -0x8000 <= value < 0x8000
      modifies this`queue, junk
      ensures queue == old(queue) + [IntMessage(id, value, old(junk[..]))]
    {
      ghost var was := junk[..];
      var low, high := value % 256, value / 256 % 256;
      junk[0], junk[1] := low as byte, high as byte;
      assert junk[..] == Filled([low as byte, high as byte], was);
      queue := queue + [Message(Frame(id, 2, junk[..]), IntType, true)];
    }

    /** enqueue_bool() */
    method EnqueueBool(id: nat, value: bool, junk: array<byte>)
      requires junk.Length == MAX_DATA
      modifies this`queue, junk
      ensures queue == old(queue) + [BoolMessage(id, value, old(junk[..]))]
    {
      ghost var was := junk[..];
      junk[0] := if value then 1 else 0;
      assert junk[..] == Filled([junk[0]], was);
      queue := queue + [Message(Frame(id, 1, junk[..]), BoolType, true)];
    }

    /** enqueue_bytes() and enqueue_array(): at most 64 octets are taken. */
    method EnqueueBytes(id: nat, value: seq<byte>, typ: Type, junk: array<byte>)
      requires junk.Length == MAX_DATA
      modifies this`queue, junk
      ensures queue == old(queue) + [BytesMessage(id, value, typ, old(junk[..]))]
    {
      ghost var was := junk[..];
      var len := if |value| > MAX_DATA then MAX_DATA else |value|;
      for i := 0 to len
        invariant junk[..i] == value[..i] && junk[i..] == was[i..] && queue == old(queue)
      {
        junk[i] := value[i];
      }
      assert value[..len] == Front(value) && len == |Front(value)|;
      assert junk[..] == Filled(Front(value), was);
      queue := queue + [Message(Frame(id, len, junk[..]), typ, true)];
    }

    /** dequeue(): nothing when the queue is empty. */
    method Dequeue() returns (m: Option<Message>)
      modifies this`queue
      ensures m == if old(queue) == [] then None else Some(old(queue)[0])
      ensures queue == if old(queue) == [] then [] else old(queue)[1..]
    {
      if |queue| == 0 { return None; }
      m := Some(queue[0]);
      queue := queue[1..];
    }

    // ---- can_hashtable ----

    /** put() with DONT_WRITE_DUPLICATES */
    method PutMessage(m: Message)
      requires ValidCache(cache) && ValidFrame(m.frame)
      modifies this`cache
      ensures cache == Put(hash, old(cache), m)
    {
      var key := Key(m.frame);
      if key in cache {
        if hash(Content(cache[key].frame)) != hash(Content(m.frame)) {
          cache := cache[key := m];
        }
      } else {
        cache := cache[key := m];
      }
    }

    // ---- can_frame_to_json ----

    /** register_conversion() */
    method RegisterConversion(id: nat, typ: Type)
      modifies this`types
      ensures types == old(types)[id := typ]
    {
      types := types[id := typ];
    }

    /** get() and convert_frame(): looking up the type of an unknown id registers it as NONE. */
    method ReadPayload(id: nat) returns (p: Option<Payload>, raw: Option<seq<byte>>)
      requires ValidWorld(View())
      modifies this`types
      ensures p == Read(old(View()), id) && raw == ReadRaw(old(View()), id)
      ensures View() == Next(hash, old(View()), ReadId(id))
    {
      if id !in cache { return None, None; }
      var f := cache[id].frame;
      if Key(f) !in types {
        types := types[Key(f) := NoType];
      }
      var typ := if types[Key(f)] == NoType then RawType else types[Key(f)];
      return Some(Decode(f, typ)), Some(FrameDataToVector(f));
    }

    /** frame_data_to_vector() */
    static function FrameDataToVector(f: Frame): seq<byte>
      requires ValidFrame(f)
    {
      f.data[..f.len]
    }

    // ---- The main loop ----

    /** A frame from the socket. */
    method OnFrame(f: Frame)
      requires ValidWorld(View()) && ValidFrame(f)
      modifies this`cache
      ensures View() == Next(hash, old(View()), Receive(f))
    {
      PutMessage(Message(f, NoType, false));
    }

    /** The send half of the loop. */
    method OnSend()
      requires ValidWorld(View())
      modifies this`queue, this`cache, this`types
      ensures View() == Next(hash, old(View()), SendNext)
    {
      var m := Dequeue();
      if m.Some? {
        if Key(m.value.frame) !in types {
          RegisterConversion(Key(m.value.frame), m.value.typ);
        }
        PutMessage(m.value);
      }
    }
  }

  // ---- The queue under concurrent use ----

  /** Where the single consumer is: at the loop's test, inside dequeue(), or past its test. */
  datatype Consumer = AtLoop | InDequeue | AtPop

  /** `crashed` records a pop of an empty queue. */
  datatype Shared = Shared(queue: seq<Message>, consumer: Consumer, crashed: bool,
                           enqueued: seq<Message>, dequeued: seq<Message>)

  /** A locked section: a push by some request, or the consumer's next one. */
  datatype Section = Push(m: Message) | Consume

  function Step(s: Shared, x: Section): Shared {
    match x
    case Push(m) => s.(queue := s.queue + [m], enqueued := s.enqueued + [m])
    case Consume =>
      match s.consumer
      case AtLoop => s.(consumer := if |s.queue| > 0 then InDequeue else AtLoop)
      case InDequeue => s.(consumer := if |s.queue| > 0 then AtPop else AtLoop)
      case AtPop =>
        if s.queue == [] then s.(crashed := true)
        else s.(queue := s.queue[1..], dequeued := s.dequeued + [s.queue[0]], consumer := AtLoop)
  }

  function Run(s: Shared, xs: seq<Section>): Shared
    decreases |xs|
  {
    if xs == [] then s else Run(Step(s, xs[0]), xs[1..])
  }

  predicate Conserved(s: Shared) {
    !s.crashed && s.enqueued == s.dequeued + s.queue && (s.consumer == AtPop ==> s.queue != [])
  }

  lemma StepConserves(s: Shared, x: Section)
    requires Conserved(s)
    ensures Conserved(Step(s, x))
  {
    if x.Consume? && s.consumer == AtPop {
      assert s.dequeued + s.queue == (s.dequeued + [s.queue[0]]) + s.queue[1..];
    }
  }

  /**
   * Under every interleaving, frames leave the queue in the order in which
   * they entered it, none is lost, and the gap between the test and the pop
   * never lets the pop find an empty queue.
   */
  lemma {:induction false} RunConserves(s: Shared, xs: seq<Section>)
    requires Conserved(s)
    ensures Conserved(Run(s, xs))
    decreases |xs|
  {
    if xs != [] {
      StepConserves(s, xs[0]);
      RunConserves(Step(s, xs[0]), xs[1..]);
    }
  }
}
