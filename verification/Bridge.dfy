/**
 * The bridge's own state: the queue of frames to send, the cache of the last
 * message of each id, and the register of payload types.
 */
module Bridge {
  import opened Bytes

  const MAX_DATA: nat := 64

  datatype Type = NoType | IntType | BoolType | ByteType | StrType | RawType

  /** A frame has room for 64 octets, of which the first len count. */
  datatype Frame = Frame(id: nat, len: nat, data: seq<byte>)

  predicate ValidFrame(f: Frame) {
    |f.data| == MAX_DATA && f.len <= MAX_DATA
  }

  datatype Message = Message(frame: Frame, typ: Type, sent: bool)

  datatype Payload = NoPayload | IntPayload(i: int) | BoolPayload(b: bool) | StrPayload(s: seq<byte>)

  /** A collision-free hash. */
  ghost predicate Injective(hash: seq<byte> -> int) {
    forall a, b :: hash(a) == hash(b) ==> a == b
  }

  // ---- Building frames ----

  /** Octets at the front of a frame; the rest is whatever was in memory. */
  function Filled(front: seq<byte>, junk: seq<byte>): seq<byte>
    requires |front| <= MAX_DATA == |junk|
  {
    front + junk[|front|..]
  }

  function IntMessage(id: nat, value: int, junk: seq<byte>): Message
    requires |junk| == MAX_DATA
  {
    Message(Frame(id, 2, Filled([(value % 256) as byte, (value / 256 % 256) as byte], junk)), IntType, true)
  }

  function BoolMessage(id: nat, value: bool, junk: seq<byte>): Message
    requires |junk| == MAX_DATA
  {
    Message(Frame(id, 1, Filled([if value then 1 else 0], junk)), BoolType, true)
  }

  function Front(value: seq<byte>): seq<byte> {
    if |value| > MAX_DATA then value[..MAX_DATA] else value
  }

  function BytesMessage(id: nat, value: seq<byte>, typ: Type, junk: seq<byte>): Message
    requires |junk| == MAX_DATA
  {
    Message(Frame(id, |Front(value)|, Filled(Front(value), junk)), typ, true)
  }

  // ---- Reading ----

  /** The payload that convert_frame() shows for a type. */
  function Decode(f: Frame, typ: Type): Payload
    requires ValidFrame(f)
  {
    match typ
    case IntType => IntPayload(f.data[1] as int * 256 + f.data[0] as int)
    case BoolType => BoolPayload(f.data[0] != 0)
    case ByteType => IntPayload(f.data[0] as int)
    case StrType => StrPayload(f.data[..f.len])
    case NoType => NoPayload
    case RawType => NoPayload
  }

  // ---- The state and its steps ----

  datatype World = World(queue: seq<Message>, cache: map<nat, Message>, types: map<nat, Type>)

  /** The maps are keyed by the low sixteen bits of an id. */
  function Key(f: Frame): nat {
    f.id % 65536
  }

  predicate ValidCache(cache: map<nat, Message>) {
    forall id <- cache.Keys :: ValidFrame(cache[id].frame) && Key(cache[id].frame) == id
  }

  predicate ValidWorld(w: World) {
    (forall i :: 0 <= i < |w.queue| ==> ValidFrame(w.queue[i].frame)) && ValidCache(w.cache)
  }

  /** The octets that count. */
  function Content(f: Frame): seq<byte>
    requires ValidFrame(f)
  {
    f.data[..f.len]
  }

  /** put(): a message is kept unless the cached one has the same hash. */
  function Put(hash: seq<byte> -> int, cache: map<nat, Message>, m: Message): map<nat, Message>
    requires ValidFrame(m.frame) && ValidCache(cache)
  {
    var key := Key(m.frame);
    if key in cache && hash(Content(cache[key].frame)) == hash(Content(m.frame)) then cache else cache[key := m]
  }

  datatype Event =
    | Enqueue(m: Message)
    | Receive(f: Frame)
    | SendNext
    | ReadId(id: nat)

  predicate ValidEvent(e: Event) {
    (e.Enqueue? ==> ValidFrame(e.m.frame)) && (e.Receive? ==> ValidFrame(e.f))
  }

  /** The main loop sends the first queued frame: registers its type if new, and stores it. */
  function Send(hash: seq<byte> -> int, w: World): World
    requires ValidWorld(w)
  {
    if w.queue == [] then w
    else
      var m := w.queue[0];
      var types := if Key(m.frame) in w.types then w.types else w.types[Key(m.frame) := m.typ];
      World(w.queue[1..], Put(hash, w.cache, m), types)
  }

  /** Converting a frame enters its id in the register. */
  function Touch(types: map<nat, Type>, id: nat): map<nat, Type> {
    if id in types then types else types[id := NoType]
  }

  function Next(hash: seq<byte> -> int, w: World, e: Event): World
    requires ValidWorld(w) && ValidEvent(e)
  {
    match e
    case Enqueue(m) => w.(queue := w.queue + [m])
    case Receive(f) => w.(cache := Put(hash, w.cache, Message(f, NoType, false)))
    case SendNext => Send(hash, w)
    case ReadId(id) => if id in w.cache then w.(types := Touch(w.types, id)) else w
  }

  /** What reading an id returns; unregistered ids have no payload. */
  function Read(w: World, id: nat): Option<Payload>
    requires ValidWorld(w)
  {
    if id !in w.cache then None
    else Some(Decode(w.cache[id].frame, if id in w.types then w.types[id] else NoType))
  }

  lemma NextValid(hash: seq<byte> -> int, w: World, e: Event)
    requires ValidWorld(w) && ValidEvent(e)
    ensures ValidWorld(Next(hash, w, e))
  {
  }

  // ---- Reading back what was sent ----

  /** Two frames with the same first len octets decode alike, if the type looks no further. */
  lemma SamePayload(f: Frame, g: Frame, typ: Type)
    requires ValidFrame(f) && ValidFrame(g) && Content(f) == Content(g)
    requires typ == IntType ==> f.len >= 2
    requires typ == BoolType || typ == ByteType ==> f.len >= 1
    ensures Decode(f, typ) == Decode(g, typ)
  {
    assert f.len == |Content(f)| == g.len;
    if f.len >= 1 {
      assert f.data[0] == Content(f)[0] == Content(g)[0];
    }
    if f.len >= 2 {
      assert f.data[1] == Content(f)[1] == Content(g)[1];
    }
  }

  /** The message carries as many octets as its type reads. */
  predicate Carries(m: Message) {
    && ValidFrame(m.frame)
    && (m.typ == IntType ==> m.frame.len >= 2)
    && (m.typ == BoolType || m.typ == ByteType ==> m.frame.len >= 1)
  }

  /** Storing a message makes its payload readable, even if the cache keeps an older equal one. */
  lemma StoredDecodes(hash: seq<byte> -> int, cache: map<nat, Message>, m: Message)
    requires Injective(hash) && ValidCache(cache) && Carries(m)
    ensures var cache' := Put(hash, cache, m);
      && ValidCache(cache') && Key(m.frame) in cache'
      && Decode(cache'[Key(m.frame)].frame, m.typ) == Decode(m.frame, m.typ)
  {
    var key := Key(m.frame);
    if key in cache {
      var g := cache[key].frame;
      if hash(Content(g)) == hash(Content(m.frame)) {
        SamePayload(m.frame, g, m.typ);
      }
    }
  }

  // ---- What is read is what came last ----

  /** The octets that are shown with every frame. */
  function ReadRaw(w: World, id: nat): Option<seq<byte>>
    requires ValidWorld(w)
  {
    if id in w.cache then Some(Content(w.cache[id].frame)) else None
  }

  function TypeOf(w: World, id: nat): Option<Type> {
    if id in w.types then Some(w.types[id]) else None
  }

  /**
   * All that matters of the past for one id: what waits to be sent, the octets
   * of the last frame with that id on the bus, and the type that the id was
   * first given. Reading an id that has none gives it none for good.
   */
  datatype Past = Past(queue: seq<Message>, last: Option<seq<byte>>, typ: Option<Type>)

  function PastStep(p: Past, e: Event, id: nat): Past
    requires ValidEvent(e) && forall i :: 0 <= i < |p.queue| ==> ValidFrame(p.queue[i].frame)
  {
    match e
    case Enqueue(m) => p.(queue := p.queue + [m])
    case Receive(f) => if f.id % 65536 == id then p.(last := Some(f.data[..f.len])) else p
    case SendNext =>
      if p.queue == [] then p
      else if p.queue[0].frame.id % 65536 != id then p.(queue := p.queue[1..])
      else
        var m := p.queue[0];
        assert ValidFrame(m.frame);
        Past(p.queue[1..], Some(m.frame.data[..m.frame.len]), if p.typ.Some? then p.typ else Some(m.typ))
    case ReadId(i) => if i == id && p.last.Some? && p.typ.None? then p.(typ := Some(NoType)) else p
  }

  predicate ValidEvents(events: seq<Event>) {
    forall i :: 0 <= i < |events| ==> ValidEvent(events[i])
  }

  function PastOf(p: Past, events: seq<Event>, id: nat): Past
    requires ValidEvents(events)
    requires forall i :: 0 <= i < |p.queue| ==> ValidFrame(p.queue[i].frame)
    decreases |events|
  {
    if events == [] then p else PastOf(PastStep(p, events[0], id), events[1..], id)
  }

  function Run(hash: seq<byte> -> int, w: World, events: seq<Event>): (r: World)
    requires ValidWorld(w) && ValidEvents(events)
    ensures ValidWorld(r)
    decreases |events|
  {
    if events == [] then w
    else
      NextValid(hash, w, events[0]);
      Run(hash, Next(hash, w, events[0]), events[1..])
  }

  /** The world is as that past left it. */
  ghost predicate Recalls(w: World, p: Past, id: nat) {
    ValidWorld(w) && w.queue == p.queue && ReadRaw(w, id) == p.last && TypeOf(w, id) == p.typ
  }

  lemma PutShows(hash: seq<byte> -> int, cache: map<nat, Message>, m: Message, id: nat)
    requires Injective(hash) && ValidCache(cache) && ValidFrame(m.frame)
    ensures var cache' := Put(hash, cache, m);
      && ValidCache(cache')
      && (Key(m.frame) == id ==> id in cache' && Content(cache'[id].frame) == Content(m.frame))
      && (Key(m.frame) != id ==> (id in cache' <==> id in cache) && (id in cache ==> cache'[id] == cache[id]))
  {
  }

  lemma StepRecalls(hash: seq<byte> -> int, w: World, p: Past, e: Event, id: nat)
    requires Injective(hash) && Recalls(w, p, id) && ValidEvent(e)
    ensures Recalls(Next(hash, w, e), PastStep(p, e, id), id)
  {
    NextValid(hash, w, e);
    match e
    case Enqueue(_) =>
    case Receive(f) => PutShows(hash, w.cache, Message(f, NoType, false), id);
    case SendNext =>
      if w.queue != [] {
        PutShows(hash, w.cache, w.queue[0], id);
      }
    case ReadId(_) =>
  }

  /**
   * Over every run, the octets shown for an id are those of the last frame with
   * it that was sent or received, and its type is the first that it was given.
   */
  lemma {:induction false} RunRecalls(hash: seq<byte> -> int, w: World, p: Past, events: seq<Event>, id: nat)
    requires Injective(hash) && Recalls(w, p, id) && ValidEvents(events)
    ensures Recalls(Run(hash, w, events), PastOf(p, events, id), id)
    decreases |events|
  {
    if events != [] {
      StepRecalls(hash, w, p, events[0], id);
      RunRecalls(hash, Next(hash, w, events[0]), PastStep(p, events[0], id), events[1..], id);
    }
  }

  /** The payload that octets stand for, None if there are too few for the type. */
  function Shown(o: seq<byte>, typ: Type): Option<Payload> {
    match typ
    case IntType => if |o| >= 2 then Some(IntPayload(o[0] as int + 256 * o[1] as int)) else None
    case BoolType => if |o| >= 1 then Some(BoolPayload(o[0] != 0)) else None
    case ByteType => if |o| >= 1 then Some(IntPayload(o[0] as int)) else None
    case StrType => Some(StrPayload(o))
    case _ => Some(NoPayload)
  }

  function OrNone(typ: Option<Type>): Type {
    if typ.Some? then typ.value else NoType
  }

  /** Where the octets suffice, that is the payload read. */
  lemma ReadShows(w: World, id: nat)
    requires ValidWorld(w) && ReadRaw(w, id).Some?
    ensures var typ := OrNone(TypeOf(w, id));
      Shown(ReadRaw(w, id).value, typ).Some? ==> Read(w, id) == Shown(ReadRaw(w, id).value, typ)
  {
    var f := w.cache[id].frame;
    assert f.len >= 1 ==> Content(f)[0] == f.data[0];
    assert f.len >= 2 ==> Content(f)[1] == f.data[1];
  }

  /** From the start: what is read for an id is the last frame with it, as the first type given to it. */
  lemma ReadsLast(hash: seq<byte> -> int, events: seq<Event>, id: nat)
    requires Injective(hash) && ValidEvents(events)
    ensures var w, p := Run(hash, World([], map[], map[]), events), PastOf(Past([], None, None), events, id);
      && ReadRaw(w, id) == p.last
      && (Read(w, id).None? <==> p.last.None?)
      && (p.last.Some? && Shown(p.last.value, OrNone(p.typ)).Some? ==>
            Read(w, id) == Shown(p.last.value, OrNone(p.typ)))
  {
    var w := Run(hash, World([], map[], map[]), events);
    RunRecalls(hash, World([], map[], map[]), Past([], None, None), events, id);
    if ReadRaw(w, id).Some? {
      ReadShows(w, id);
    }
  }

  /** A frame received for an id is shown at once, as the type that the id has. */
  lemma ReceivedReads(hash: seq<byte> -> int, w: World, f: Frame, typ: Type)
    requires Injective(hash) && ValidWorld(w) && ValidFrame(f) && TypeOf(w, Key(f)) == Some(typ)
    ensures var w' := Next(hash, w, Receive(f));
      && ValidWorld(w') && ReadRaw(w', Key(f)) == Some(f.data[..f.len])
      && (Shown(f.data[..f.len], typ).Some? ==> Read(w', Key(f)) == Shown(f.data[..f.len], typ))
  {
    var w' := Next(hash, w, Receive(f));
    NextValid(hash, w, Receive(f));
    PutShows(hash, w.cache, Message(f, NoType, false), Key(f));
    ReadShows(w', Key(f));
  }

  /** A message sent for an unregistered id is read back as it was sent. */
  lemma SentReadsBack(hash: seq<byte> -> int, w: World)
    requires Injective(hash) && ValidWorld(w) && w.queue != []
    requires Carries(w.queue[0]) && Key(w.queue[0].frame) !in w.types
    ensures ValidWorld(Send(hash, w))
    ensures var m := w.queue[0];
      && Read(Send(hash, w), Key(m.frame)) == Some(Decode(m.frame, m.typ))
      && Key(m.frame) in Send(hash, w).types
  {
    StoredDecodes(hash, w.cache, w.queue[0]);
  }

  /** The event brings no frame for the id. */
  predicate Quiet(w: World, e: Event, id: nat) {
    match e
    case Enqueue(_) => true
    case Receive(f) => Key(f) != id
    case SendNext => w.queue == [] || Key(w.queue[0].frame) != id
    case ReadId(_) => true
  }

  ghost predicate QuietRun(hash: seq<byte> -> int, w: World, events: seq<Event>, id: nat)
    requires ValidWorld(w)
    decreases |events|
  {
    events == [] ||
    (ValidEvent(events[0]) && Quiet(w, events[0], id) && ValidWorld(Next(hash, w, events[0]))
     && QuietRun(hash, Next(hash, w, events[0]), events[1..], id))
  }

  ghost function After(hash: seq<byte> -> int, w: World, events: seq<Event>, id: nat): (r: World)
    requires ValidWorld(w) && QuietRun(hash, w, events, id)
    ensures ValidWorld(r)
    decreases |events|
  {
    if events == [] then w else After(hash, Next(hash, w, events[0]), events[1..], id)
  }

  lemma QuietKeeps(hash: seq<byte> -> int, w: World, e: Event, id: nat)
    requires ValidWorld(w) && ValidEvent(e) && Quiet(w, e, id) && id in w.types
    ensures ValidWorld(Next(hash, w, e)) && id in Next(hash, w, e).types
    ensures Read(Next(hash, w, e), id) == Read(w, id)
  {
    NextValid(hash, w, e);
  }

  /** The value stays readable until another frame with its id arrives. */
  lemma {:induction false} ReadsBackLater(hash: seq<byte> -> int, w: World, events: seq<Event>, id: nat)
    requires ValidWorld(w) && QuietRun(hash, w, events, id) && id in w.types
    ensures Read(After(hash, w, events, id), id) == Read(w, id)
    decreases |events|
  {
    if events != [] {
      QuietKeeps(hash, w, events[0], id);
      ReadsBackLater(hash, Next(hash, w, events[0]), events[1..], id);
    }
  }

  /** What each kind of value is read back as. */
  lemma IntDecodes(id: nat, value: int, junk: seq<byte>)
    requires |junk| == MAX_DATA
    ensures Carries(IntMessage(id, value, junk))
    ensures Decode(IntMessage(id, value, junk).frame, IntType) == IntPayload(value % 65536)
  {
    assert value % 65536 == value / 256 % 256 * 256 + value % 256;
  }

  lemma BoolDecodes(id: nat, value: bool, junk: seq<byte>)
    requires |junk| == MAX_DATA
    ensures Carries(BoolMessage(id, value, junk))
    ensures Decode(BoolMessage(id, value, junk).frame, BoolType) == BoolPayload(value)
  {
  }

  lemma StrDecodes(id: nat, value: seq<byte>, junk: seq<byte>)
    requires |junk| == MAX_DATA
    ensures Carries(BytesMessage(id, value, StrType, junk))
    ensures Decode(BytesMessage(id, value, StrType, junk).frame, StrType) == StrPayload(Front(value))
  {
    var f := BytesMessage(id, value, StrType, junk).frame;
    assert f.data[..f.len] == Front(value);
  }

  lemma ArrayDecodes(id: nat, value: seq<byte>, junk: seq<byte>)
    requires |junk| == MAX_DATA && value != []
    ensures Carries(BytesMessage(id, value, ByteType, junk))
    ensures Decode(BytesMessage(id, value, ByteType, junk).frame, ByteType) == IntPayload(value[0] as int)
  {
  }

  /** The values a client can send. */
  datatype Value = IntValue(i: int) | BoolValue(b: bool) | StrValue(s: seq<byte>) | ArrayValue(a: seq<byte>)

  function MessageOf(id: nat, v: Value, junk: seq<byte>): Message
    requires |junk| == MAX_DATA
  {
    match v
    case IntValue(i) => IntMessage(id, i, junk)
    case BoolValue(b) => BoolMessage(id, b, junk)
    case StrValue(s) => BytesMessage(id, s, StrType, junk)
    case ArrayValue(a) => BytesMessage(id, a, ByteType, junk)
  }

  /** The payload of an array is its first octet. */
  function Expected(v: Value): Payload
    requires v != ArrayValue([])
  {
    match v
    case IntValue(i) => IntPayload(i % 65536)
    case BoolValue(b) => BoolPayload(b)
    case StrValue(s) => StrPayload(Front(s))
    case ArrayValue(a) => IntPayload(a[0] as int)
  }

  /** The octets shown with it. */
  function ExpectedRaw(v: Value): seq<byte> {
    match v
    case IntValue(i) => [(i % 256) as byte, (i / 256 % 256) as byte]
    case BoolValue(b) => [if b then 1 else 0]
    case StrValue(s) => if |s| > 64 then s[..64] else s
    case ArrayValue(a) => if |a| > 64 then a[..64] else a
  }

  lemma RawOf(id: nat, v: Value, junk: seq<byte>)
    requires |junk| == MAX_DATA
    ensures ValidFrame(MessageOf(id, v, junk).frame) && Content(MessageOf(id, v, junk).frame) == ExpectedRaw(v)
  {
    var f := MessageOf(id, v, junk).frame;
    assert f.data[..f.len] == ExpectedRaw(v);
  }

  lemma ValueDecodes(id: nat, v: Value, junk: seq<byte>)
    requires |junk| == MAX_DATA && v != ArrayValue([])
    ensures var m := MessageOf(id, v, junk);
      Carries(m) && m.frame.id == id && Decode(m.frame, m.typ) == Expected(v)
  {
    match v {
      case IntValue(i) => IntDecodes(id, i, junk);
      case BoolValue(b) => BoolDecodes(id, b, junk);
      case StrValue(s) => StrDecodes(id, s, junk);
      case ArrayValue(a) => ArrayDecodes(id, a, junk);
    }
  }

  /**
   * A value sent for an id that is not registered reads back, after the main
   * loop has taken it and until another frame with that id comes, as the same
   * bool, the integer modulo 65536, the first 64 octets of a string, or the
   * first octet of an array.
   */
  lemma RoundTrip(hash: seq<byte> -> int, w: World, id: nat, v: Value, junk: seq<byte>, events: seq<Event>)
    requires Injective(hash) && ValidWorld(w) && |junk| == MAX_DATA && id < 65536 && v != ArrayValue([])
    requires w.queue != [] && w.queue[0] == MessageOf(id, v, junk) && id !in w.types
    requires ValidWorld(Send(hash, w)) && QuietRun(hash, Send(hash, w), events, id)
    ensures Read(After(hash, Send(hash, w), events, id), id) == Some(Expected(v))
  {
    ValueDecodes(id, v, junk);
    SentReadsBack(hash, w);
    ReadsBackLater(hash, Send(hash, w), events, id);
  }

  /** Whatever type the id has, the octets of a value that was sent last are those shown. */
  lemma SentShows(hash: seq<byte> -> int, w: World, id: nat, v: Value, junk: seq<byte>)
    requires Injective(hash) && ValidWorld(w) && |junk| == MAX_DATA && id < 65536
    requires w.queue != [] && w.queue[0] == MessageOf(id, v, junk)
    ensures ValidWorld(Send(hash, w)) && ReadRaw(Send(hash, w), id) == Some(ExpectedRaw(v))
  {
    RawOf(id, v, junk);
    PutShows(hash, w.cache, w.queue[0], id);
  }
}
