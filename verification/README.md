# SocketCan2Rest: models and proofs

SocketCan2Rest bridges a CAN bus to a REST interface. Most of what can go wrong
in it happens in the C libraries that it carries along: the Redis client
(`libs/hiredis`) and the CAN tools (`libs/can-utils`). This project models the
cores of those libraries and of the bridge itself in Dafny and proves what they
are for. `dafny verify dfyconfig.toml` checks everything.

| files | what they model | main results |
|---|---|---|
| `Resp`, `RespArena`, `RespReader`, `RespStream` | the incremental reader of the Redis protocol: byte buffer, cursor, task stack, reply objects filled slot by slot | fed in any pieces, it yields the replies and the fault of a recursive-descent parser on the whole stream |
| `RespWire` | every form in which a reply can be sent | the reader reads exactly these forms, each as the reply that it stands for |
| `RespFormat`, `Decimal` | the command formatter and the decimal texts of 64-bit integers | commands read back as their arguments; the strict parser inverts the printer |
| `AsyncContext`, `CallbackList` | the asynchronous context: two callback lists, subscriptions, flags, shutdown, and user code that calls back in | callbacks run in order of issue, each once; the k-th gets the k-th reply read that is an answer |
| `PubSubReply`, `PubSub` | the messages of the server to subscribers, and how the context reads them | while a subscription lasts, every message reaches its subscriber once and in order, over any run |
| `CanBits`, `CanCrc`, `CanStuffing`, `CanFrameLength` | frame lengths on the wire: table-driven CRC-15, windowed stuff-bit counter, closed-form bounds (Bosch CAN Specification 2.0 Part B, sections 3.2.1 and 6) | the fast forms compute what the bit-serial definitions do; plain length <= exact length <= worst-case length |
| `AddressClaim`, `AddressTable`, `AddressClash`, `AddressDaemon` | SAE J1939-81 address claiming by any number of daemons on a broadcast bus | two settled daemons never hold one address, exactly as long as no command moves a daemon to an address that no node can hold |
| `AddressAnswers` | requests for claims and their answers | every request is answered; a newcomer then knows every settled daemon, exactly if all first and commanded addresses are real |
| `FrameText`, `FrameTextCode` | the compact text form of CAN frames | printing and reading restores exactly the well-formed frames |
| `FrameSpelling` | every way to spell a frame | the reader accepts exactly the spellings, each as the frame it stands for |
| `SdsRepr` | quoted strings | any octet strings, quoted on a line, split into exactly those strings |
| `SdsWords` | plain, double-quoted and single-quoted words | a line is split exactly if it is made of words, and into what they stand for |
| `DictBuckets`, `Dict` | the chained hash table | it answers any sequence of up to 2^31 operations as a finite map does |
| `EchoTest`, `EchoBus` | the full-duplex echo test with its three ring cursors | on a lossless bus, under any schedule, it comes to its end, and complains if and only if both directions share an identifier |
| `BitTiming`, `BitTimingOptimal`, `Arithmetic` | the bit timing search of Linux 4.8 | the choice is lexicographically best although the search ends early |
| `Bridge`, `BridgeCode` | send queue, message cache and type register of the bridge | what is read for an id is the last frame with it, sent or received; a value that was sent is read back; the queue loses and reorders nothing under concurrent use |

Where the source changes state in place the model does too: a class with the
source's fields, or loops over arrays and moving indices, each method proved
against a specification function; what the source promises is then proved about
those functions. The methods contracted with `old` carry the connection, the
lemmas beside them the promises.

Where code and documentation differ, the model follows the code:

- A RESP boolean may also be the single octet NUL, because `strchr()` finds its
  terminator (`libs/hiredis/read.c:338`). The two octets after a bulk payload are
  skipped whatever they are (`libs/hiredis/read.c:429-430`).
- A comment says that a daemon hearing its own claim disables the retry timer
  (`libs/can-utils/j1939acd.c:613`); nothing disables it.
- A remote frame whose length digit exceeds 8 is read as one of length 0 rather
  than refused (`libs/can-utils/lib.c:199-212`).
- A remote frame has no data field (Bosch CAN Specification 2.0 Part B, section
  3.2.2), but its data octets are counted into its length
  (`libs/can-utils/canframelen.c:184-203`).

Some promises turned out not to hold of the code everywhere. They are proved
with their exact condition or next to an input that breaks them:

- `AddressClash.SafeExactly`: daemons keep distinct addresses if and only if
  address commands name addresses below 254. `AddressClash.Clash` builds a run of
  twenty steps in which a command to 254 arrives while a defence is unsent.
- `CanCrc.StaysInBounds`: for a range of the bitmap, `calc_bitmap_crc` reads
  inside the bitmap if and only if the range ends before the bitmap does and does
  not begin and end in the middle of the same octet. `CanCrc.ReadsOutside` has a
  range of either kind.
- `CanFrameLength.ExactOnWire`: the exact length is the length on the wire if and
  only if the frame is not a remote frame with a length code. Those are
  over-counted: `CanFrameLength.RemoteFrame` is one of 111 bits or more instead of
  at most 55.
- `Dict.IndexFitsInt`: the `int` in which `dictAdd` keeps a bucket holds every
  bucket if and only if the table has at most 2^31 slots. `Dict.FullFails`: with
  one entry more a new key is refused as if it were there, or written outside the
  table.
- `AddressAnswers.KnownExactly`: the answers to a request tell a newcomer the
  address of every settled daemon if and only if daemons start with an address
  below 254 and commands name such addresses. `AddressAnswers.Raced` starts from
  the program's own first address 254: the daemon answers a request with it before
  it has heard its own claim.
- `PubSub.CarriedOver`: a channel subscribed to in one command behind a channel
  that was there before is forgotten at its unsubscribe message if and only if the
  other one had no confirmation to come, because the counter carries over
  (`libs/hiredis/async.c:779-803`).
- `FrameText.RoundTripExact`: a frame survives printing and reading if and only
  if it is well formed.
- `EchoBus.Complete`: every run of the echo test that goes on until its end
  complains if and only if both directions share an identifier. With one
  identifier an early echo may still pass for an own frame
  (`EchoBus.EchoIsNextPing`), but never the last one.
- `BitTimingOptimal.NearTriedExactly`: the bit timing search tries a prescaler on
  the same side of the exact one as a given prescaler, and at least as near, if
  and only if rounding to the step of the hardware meets the limits on that side.
  It can therefore miss the best one with a step of two
  (`BitTimingOptimal.StepOfTwoMisses`), and with a step of one exactly when the
  exact prescaler lies beyond the limits and not next to the lower one: then it
  tries nothing for that number of quanta (`BitTimingOptimal.OutOfReach`,
  `BitTimingOptimal.NothingBeyond`).

## Model

| member | source | states |
|---|---|---|
| Decimal.String2ll | libs/hiredis/read.c:162-223 | succeeds on exactly the canonical decimal texts of signed 64-bit integers and returns the integer whose text it is |
| Decimal.ReadDigits | libs/hiredis/read.c:186-207 | the digit loop returns the value of all leading digits, or stops at a prefix whose value exceeds the unsigned 64-bit range |
| Decimal.CanonicalIsDigits | libs/hiredis/read.c:154-161 | a digit string without a superfluous zero is the printed form of its value, so parsing loses nothing |
| Decimal.NotAText | libs/hiredis/read.c:186-221 | a non-digit, a leading zero or a value out of range makes the string the text of no 64-bit integer |
| Decimal.IsAText | libs/hiredis/read.c:186-221 | canonical digits within range behind an optional minus sign are the text of their signed value |
| Decimal.IntOfText | libs/hiredis/read.c:159-161 | reading the text of a 64-bit integer gives that integer back |
| Decimal.TextInjective | libs/hiredis/sds.c:431-460 | different integers have different texts |
| Decimal.Ll2str | libs/hiredis/sds.c:424-460 | writes the canonical text of any signed 64-bit integer and its terminator into 21 octets, returns the text length and touches nothing behind the terminator |
| Decimal.PrintReversed | libs/hiredis/sds.c:436-443 | the digit loop leaves exactly the canonical digits in the buffer, last one first |
| Decimal.ReverseFirst | libs/hiredis/sds.c:450-458 | the swapping loop reverses the first octets and leaves the rest alone |
| Decimal.LlongDigits | libs/hiredis/sds.c:425-430 | no 64-bit magnitude has more than 19 digits, so sign, digits and terminator fit 21 octets |
| Decimal.CountDigits | libs/hiredis/hiredis.c:293-305 | stripping four digits at a time counts exactly the digits that printing will produce |
| Resp.ParseItem | libs/hiredis/read.c:570-649 | a complete item takes at least one octet off the front of the input |
| Resp.ParseElements | libs/hiredis/read.c:533-560 | a complete aggregate has exactly the declared number of elements |
| Resp.ItemStable | libs/hiredis/read.c:734-785 | a reply or a fault once reached is never changed by further octets; these are only left over |
| Resp.NextSibling | libs/hiredis/read.c:255-264 | filling a slot that is not the last resumes the enclosing parse at the next sibling, whatever input follows |
| Resp.LastSibling | libs/hiredis/read.c:255-256 | filling the last slot resumes the enclosing parse with the completed aggregate |
| Resp.Descend | libs/hiredis/read.c:546-556 | pushing a task for the first element continues the same parse one level deeper |
| Resp.ReturnsNext | libs/hiredis/read.c:240-266 | after an item in the middle of an aggregate the innermost position still decides the whole item exactly as the parser does |
| Resp.ReturnsOutward | libs/hiredis/read.c:240-266 | after the last element the completed aggregate decides the enclosing items exactly as the parser does |
| Resp.BulkConsumed | libs/hiredis/read.c:394-464 | a bulk item is decided by the octets it consumes and leaves none of them over |
| RespWire.WireRead | libs/hiredis/read.c:570-649 | every form in which a reply of any kind can be sent, written down octet by octet, is read as the reply that it stands for and leaves what follows it |
| RespWire.ItemUnread | libs/hiredis/read.c:570-649 | whatever is read as a reply begins with a form of that reply and ends with what is left over, so that nothing else is read |
| RespWire.LineUnread | libs/hiredis/read.c:268-392 | a line that is read is a form of its type: error, status, integer, double, big number, truth value or nil |
| RespWire.StreamRead | libs/hiredis/read.c:734-785 | replies sent one after the other are read as those replies in order, with nothing left over |
| RespWire.StreamUnread | libs/hiredis/read.c:734-785 | the replies read from any stream are those of the forms at its front |
| RespWire.ReadForms | libs/hiredis/read.c:703-785 | however the octets of some replies are cut into pieces, the reader yields those replies and no fault |
| RespWire.LineRefused | libs/hiredis/read.c:268-392 | a line that is no form of its type is refused with the fault of that type |
| RespWire.NumberRefused | libs/hiredis/read.c:394-511 | a length or count that is no 64-bit integer in canonical form is refused |
| RespWire.RangeRefused | libs/hiredis/read.c:412-521 | a negative length or count other than -1 is refused, and so is a count above what the reader admits |
| RespWire.FormatRefused | libs/hiredis/read.c:430-437 | a verbatim string without three octets of format and a colon is refused |
| RespWire.TypeRefused | libs/hiredis/read.c:618-620 | any other type octet is refused |
| RespArena.SameTree | libs/hiredis/hiredis.c:124-290 | a reply depends only on its own objects: objects created before or after it do not change it |
| RespArena.PlaceComplete | libs/hiredis/hiredis.c:158-165 | creating a leaf in the slot that its task names keeps the task stack well formed and all earlier slots as they were |
| RespArena.PlaceOpen | libs/hiredis/hiredis.c:173-199 | creating an aggregate with zeroed slots and pushing a task keeps the stack well formed and adds one frame with nothing read |
| RespArena.PopTask | libs/hiredis/read.c:255-256 | when the last slot is filled the parent object is full, and its reply is the earlier elements followed by the new one |
| RespArena.AdvanceTask | libs/hiredis/read.c:257-264 | otherwise the stack is well formed at the next slot, with one more element read |
| RespArena.MoreRoom | libs/hiredis/read.c:466-489 | growing the stack changes neither the tasks in progress nor what they have read |
| RespReader.SeekNewline | libs/hiredis/read.c:124-148 | hopping from CR to CR finds the first CR LF, and None only if there is none |
| RespReader.Reader.constructor | libs/hiredis/read.c:651-681 | a new reader has no fault and nothing pending |
| RespReader.Reader.Feed | libs/hiredis/read.c:703-732 | appends the octets to what is pending, also when the empty buffer is replaced; a failed reader refuses |
| RespReader.Reader.Create | libs/hiredis/hiredis.c:124-290 | the new object is entered in exactly the slot of the parent object that the current task names |
| RespReader.Reader.MoveToNextTask | libs/hiredis/read.c:240-266 | either the reply is finished, with every declared slot filled, or the stack is well formed at the next slot |
| RespReader.Reader.CheckLine | libs/hiredis/read.c:268-392 | each one-line type accepts exactly the texts of the grammar and yields their value |
| RespReader.Reader.ProcessLineItem | libs/hiredis/read.c:268-392 | reports the fault of the parser, waits for a whole line, or consumes the line and moves on |
| RespReader.Reader.ProcessBulkItem | libs/hiredis/read.c:394-464 | reports the fault of the parser, waits for the whole payload, or consumes it and moves on |
| RespReader.Reader.ProcessAggregateItem | libs/hiredis/read.c:492-568 | reports the fault of the parser, waits for a whole header, or opens or completes the aggregate |
| RespReader.Reader.Grow | libs/hiredis/read.c:466-489 | nine more tasks, the existing ones untouched and the reader still in agreement with the parser |
| RespReader.Reader.ProcessItem | libs/hiredis/read.c:570-649 | success consumes input; failure is the fault of the parser or lack of octets; what is pending is kept |
| RespReader.Reader.ProcessItems | libs/hiredis/read.c:758-765 | the loop ends with a finished reply, the fault of the parser, or the parser wanting more |
| RespReader.Reader.DiscardConsumed | libs/hiredis/read.c:767-773 | dropping 1024 or more consumed octets keeps the octets behind the cursor |
| RespReader.Reader.SetError | libs/hiredis/read.c:53-75 | the fault is recorded and buffer, cursor, reply and task stack are reset |
| RespReader.Reader.GetReply | libs/hiredis/read.c:734-785 | the outcome is that of the recursive-descent parser on all that is pending: nothing yet, a fault that stays, or the reply with the rest still pending |
| RespStream.StreamCut | libs/hiredis/read.c:703-785 | the replies of a stream are those of any front part followed by those of its leftover joined with the rest; a fault in the front is final |
| RespStream.Drain | libs/hiredis/read.c:734-785 | taking replies until none is left gives all replies and the fault of what was pending |
| RespStream.ReadAll | libs/hiredis/read.c:703-785 | for every cut of a stream into pieces, feeding and draining piece by piece gives the replies and the fault of a recursive-descent parser on the whole stream; the code does so for lines and aggregates below 2^31, where its int lengths and indices end |
| RespFormat.BulkLen | libs/hiredis/hiredis.c:307-310 | the number of octets that an argument of that length takes when formatted |
| RespFormat.TotalLength | libs/hiredis/hiredis.c:641-646 | the size computed beforehand is the size of the formatted command |
| RespFormat.FormatCommandArgv | libs/hiredis/hiredis.c:631-667 | the buffer holds the array of bulk strings and a terminator; the final position is the computed size, as the code asserts |
| RespFormat.ReadBulk | libs/hiredis/hiredis.c:654-661 | an argument of any octets is read back as that string and leaves what follows it |
| RespFormat.ReadCommand | libs/hiredis/hiredis.c:626-667 | a command is read back as the array of its arguments with what follows left over, or as out of range if it has more arguments than the reader admits |
| RespFormat.ReadPipeline | libs/hiredis/hiredis.c:626-667 | any number of commands in a row are read back as those commands in order with nothing left over |
| RespFormat.RoundTrip | libs/hiredis/hiredis.c:631-667 | formatting into a buffer and feeding it to a reader gives back the arguments |
| AsyncContext.Entered | libs/hiredis/async.c:788-809 | entering names in a dictionary adds exactly those and gives each the callback; every other entry stays |
| AsyncContext.CounterCarriesOver | libs/hiredis/async.c:779-809 | a channel named after one already there starts with the raised counter of that one, where alone it would start with 1 |
| AsyncContext.Context.AddSubscriptions | libs/hiredis/async.c:788-809 | every named channel or pattern gets this callback and the counter that entering the names one after the other gives it; every other entry and the other dictionary stay |
| AsyncContext.Context.AsyncCommand | libs/hiredis/async.c:756-843 | accepted unless closing, or unsubscribing while not subscribed; then exactly the regular commands queue their callback at the end of the line |
| AsyncContext.Context.RunCallback | libs/hiredis/async.c:288-303 | the function runs once with its reply, and whatever the user code in it does keeps the order of all callbacks; while closing nothing new is queued |
| AsyncContext.Context.UserCode | libs/hiredis/async.c:356-365 | inside a callback freeing and disconnecting only set flags and no callback is taken off a list |
| AsyncContext.Context.DrainReplies | libs/hiredis/async.c:312-314 | every callback in the first list is called once in order without a reply |
| AsyncContext.Context.DrainSubReplies | libs/hiredis/async.c:315-316 | then every callback in the second list |
| AsyncContext.Context.RunSubscriptions | libs/hiredis/async.c:318-333 | every subscription callback of the dictionary is called exactly once without a reply |
| AsyncContext.Context.FreeNow | libs/hiredis/async.c:305-354 | all accepted commands have had their callback called, in order, and every subscription is told goodbye |
| AsyncContext.Context.AsyncFree | libs/hiredis/async.c:356-365 | frees at once outside callbacks and only flags inside them |
| AsyncContext.Context.DisconnectNow | libs/hiredis/async.c:367-393 | frees unless told not to; without an error no regular callback is left, as the code asserts |
| AsyncContext.Context.AsyncDisconnect | libs/hiredis/async.c:395-409 | closes at once exactly when no regular callback waits outside a callback; else nothing new is accepted |
| AsyncContext.Context.MoveSubReplies | libs/hiredis/async.c:464-470 | leaving subscribed mode moves the second list to the first in order |
| AsyncContext.Context.HandleMessage | libs/hiredis/async.c:423-474 | finds the callback of the named channel or pattern, updates its counter or entry, and leaves subscribed mode exactly after the last unsubscribe |
| AsyncContext.Context.TakeCallback | libs/hiredis/async.c:541-571 | a reply takes the first callback in line, unless it is a message that no earlier command waits for |
| AsyncContext.Context.GiveReply | libs/hiredis/async.c:573-590 | the callback is called once with the reply, and the context is freed afterwards if the callback asked for it |
| AsyncContext.Context.ProcessReply | libs/hiredis/async.c:514-596 | an answer goes to the next callback in line, a message to its subscriber, a push to the push handler; an error reply that nobody waits for closes the connection |
| AsyncContext.Context.ProcessNext | libs/hiredis/async.c:514-596 | the reply is noted with what it was when its turn came and who was told of it, and does to the dictionaries what it says; an error reply that nobody waits for is an error, and a failed assertion ends the run |
| AsyncContext.FarewellSilent | libs/hiredis/async.c:318-333 | the last calls of subscription callbacks carry no reply |
| AsyncContext.Context.ProcessCallbacks | libs/hiredis/async.c:509-601 | all replies read are handled in order, unless the context ends over one, and exactly those that are answers when their turn comes are given to callbacks; a closing connection is closed once the last answer is in and the last command is out; a read error closes it |
| AsyncContext.Context.HandleTimeout | libs/hiredis/async.c:700-735 | ignored while nothing waits; else the first list is emptied without replies and the connection closed, even if callbacks issue commands meanwhile |
| AsyncContext.Context.Command | libs/hiredis/async.c:360-409 | calls from outside a callback queue exactly the accepted regular commands, and disconnect or free as promised |
| AsyncContext.Context.Fail | libs/hiredis/async.c:603-643 | a failed connection attempt or socket error closes the connection without giving any reply |
| AsyncContext.Context.Handle | libs/hiredis/async.c:603-735 | every event keeps the order of callbacks; the replies read in it are handled in order, all of them unless the context ends, and exactly the answers given out; freeing, errors and timeouts close the connection |
| AsyncContext.Context.Run | libs/hiredis/async.c:250-843 | over any run, whatever callbacks do: callbacks run in order of issue, none twice; all replies of the connection are handled in order until an error or the end, and the k-th callback gets the k-th of those that are answers, all others are told to the subscriber or push handler they were for, and without subscriptions all but spontaneous pushes and one that ends the run are answers; only an error or the end leaves a callback without reply; all have run when the context is freed |
| PubSubReply.CString | libs/hiredis/async.c:431-453 | a C string ends at the first NUL of its octets |
| PubSub.NoticeRead | libs/hiredis/async.c:411-500 | every message of the server about a channel or pattern, as an array or as a push message, is read as what the server means by it |
| PubSub.NoticeRole | libs/hiredis/async.c:509-571 | to a subscribed context with no earlier command in line, every such message is for its subscriber |
| PubSub.Hear | libs/hiredis/async.c:509-596 | a message about a name is told to the subscriber of that name and is no answer, and the subscription goes on |
| PubSub.Listen | libs/hiredis/async.c:411-601 | over any run, while a subscription lasts and no earlier command waits: every message about it is told to its subscriber, once and in order, whatever else arrives and whatever user code does; no message is ever an answer |
| PubSub.Take | libs/hiredis/async.c:436-470 | a confirmation is counted; the end of a subscription is believed when all confirmations are in |
| PubSub.Lifecycle | libs/hiredis/async.c:411-474 | a name subscribed to by any number of commands is forgotten at its unsubscribe message, and subscribed mode left, if and only if all of them were confirmed; the subscriber is told of every message |
| PubSub.CarriedOver | libs/hiredis/async.c:779-809 | a name subscribed to in one command behind one already there is forgotten after its confirmation and end if and only if that one had no confirmation to come |
| PubSub.InvalidationIsSpontaneous | libs/hiredis/async.c:477-541 | a push message that is none of those goes to the push handler |
| CallbackList.List.PushCallback | libs/hiredis/async.c:250-270 | appends at the tail of the linked list and keeps head, tail and links consistent |
| CallbackList.List.ShiftCallback | libs/hiredis/async.c:272-286 | takes the first cell off, and fixes the tail when the list becomes empty |
| CanCrc.TableEntry | libs/can-utils/canframelen.c:76-93 | every entry of the table is the register after eight clocks from its index |
| CanCrc.LoadStep | libs/can-utils/canframelen.c:129-138 | one step on 16-bit words is one clock of the fifteen flip-flops of the CAN specification |
| CanCrc.ByteCrc | libs/can-utils/canframelen.c:103-114 | feeding an octet bit by bit is eight clocks of the register with the octet added at the top |
| CanCrc.ClocksLinear | libs/can-utils/canframelen.c:103-114 | clocking is linear, which is why one table suffices |
| CanCrc.TableFeedsByte | libs/can-utils/canframelen.c:107-112 | one table lookup does to the register what feeding the octet bit by bit does |
| CanCrc.CrcUpdateBytewise | libs/can-utils/canframelen.c:103-114 | equals the bit-serial CRC over all bits of the octets |
| CanCrc.CrcUpdateBitwise | libs/can-utils/canframelen.c:124-140 | equals the bit-serial CRC over the most significant bits of the octet |
| CanCrc.StaysInBounds | libs/can-utils/canframelen.c:142-153 | the reads at both ends and of the whole octets between stay inside the bitmap if and only if the range ends before the bitmap does and does not begin and end in the middle of one octet |
| CanCrc.ReadsOutside | libs/can-utils/canframelen.c:142-153 | a range up to the end of the bitmap reads the octet behind it; a range of one bit inside an octet reads 2^29 - 1 octets |
| CanCrc.CalcBitmapCrc | libs/can-utils/canframelen.c:142-153 | for every range in the bitmap: reads outside it exactly if the range ends with the bitmap or begins and ends in the middle of one octet; otherwise partial bits, octets by table and partial bits equal the bit-serial CRC over the range |
| CanCrc.SelfCheck | libs/can-utils/canframelen.c:142-153 | the CRC of any bits followed by their own CRC is zero |
| CanStuffing.StuffedLength | libs/can-utils/canframelen.c:212-232 | a stuffed bit sequence is longer by exactly the number of inserted bits |
| CanStuffing.DestuffStuffed | libs/can-utils/canframelen.c:212-232 | dropping the bit after five equal ones undoes stuffing |
| CanStuffing.NoSixEqual | libs/can-utils/canframelen.c:212-232 | a stuffed sequence never has six equal bits in a row |
| CanStuffing.CountFront | libs/can-utils/canframelen.c:212-232 | appending bits takes away no stuff bit and adds at most one for every four of them |
| CanStuffing.MostStuffed | libs/can-utils/canframelen.h:55-66 | bits that need as many stuff bits as that exist for every length |
| CanStuffing.CountBound | libs/can-utils/canframelen.h:55-66 | at most one stuff bit for every four bits after the first |
| CanStuffing.WindowAt | libs/can-utils/canframelen.c:219 | the shifted 16-bit word shows bits i to i + 4 of the bitmap |
| CanStuffing.FirstChange | libs/can-utils/canframelen.c:163-164 | the table of leading zeros gives the first bit of the window that differs from the value looked for |
| CanStuffing.Scan | libs/can-utils/canframelen.c:220-227 | one look at a window finds how many bits equal the value looked for before the first that differs |
| CanStuffing.LeftAfterRun | libs/can-utils/canframelen.c:225-230 | a full run accounts for one stuff bit, which starts the next run, unless it would end behind the range |
| CanStuffing.LeftAfterChange | libs/can-utils/canframelen.c:222-224 | a broken run accounts for none and starts afresh with the other value |
| CanStuffing.CountStuffBits | libs/can-utils/canframelen.c:212-232 | the windowed loop ends and counts exactly the bits inserted by one-bit-at-a-time stuffing of the range |
| CanFrameLength.StdHeader | libs/can-utils/canframelen.c:189-199 | the three header octets hold start bit, identifier, remote flag and length code of a standard frame in order |
| CanFrameLength.ExtHeader | libs/can-utils/canframelen.c:169-184 | the five header octets hold the split identifier, SRR, IDE, remote flag and length code of an extended frame in order |
| CanFrameLength.Prepare | libs/can-utils/canframelen.c:166-203 | the bitmap holds between start and end the bits that the code puts before the CRC: header and data, the data of remote frames too |
| CanFrameLength.AppendCrc | libs/can-utils/canframelen.c:205-210 | the CRC in network order, moved up one bit, continues the bits of the body |
| CanFrameLength.CflExact | libs/can-utils/canframelen.c:155-237 | header, data and CRC stuffed, plus thirteen unstuffed bits; that is the number of bits on the wire if and only if the frame is not a remote frame with a length code, for which it is too large |
| CanFrameLength.Sandwich | libs/can-utils/canframelen.h:55-66 | plain length <= exact length <= worst-case length for every classical frame |
| CanFrameLength.WorstIsReached | libs/can-utils/canframelen.h:55-66 | the worst-case formula is the plain one with a stuff bit for every four bits after the first, and there are bits of that length that need as many |
| CanFrameLength.RemoteOvercounted | libs/can-utils/canframelen.c:184-203 | a remote frame is counted at least eight bits per octet of its length code, less four, too long; without them its length is within the worst case of a frame without data |
| CanFrameLength.ExactOnWire | libs/can-utils/canframelen.c:155-237 | the exact length is the length on the wire if and only if the frame is not a remote frame with a length code |
| CanFrameLength.RemoteFrame | libs/can-utils/canframelen.c:184-203 | a remote frame with length code 8 is given 111 bits or more, of at most 55 on the wire |
| CanFrameLength.Receivable | libs/can-utils/canframelen.c:155-237 | a receiver that drops stuff bits gets the bits back and its CRC register is zero; six equal bits never occur |
| CanFrameLength.ClassicalLength | libs/can-utils/canframelen.c:274-282 | the three modes return the plain, exact and worst-case length, with exact in between; exact is the length on the wire if and only if the frame is not a remote frame with a length code; an unknown mode returns 0 |
| AddressClaim.LookupFrom | libs/can-utils/j1939acd.c:136-146 | the first entry that holds the NAME, or 254 if none does |
| AddressClaim.FirstFree | libs/can-utils/j1939acd.c:309-315 | the lowest usable entry that is empty or already this NAME, or 254 if there is none |
| AddressClaim.NextBeatable | libs/can-utils/j1939acd.c:317-331 | a usable entry held by a higher NAME, or 254 |
| AddressClaim.Record | libs/can-utils/j1939acd.c:595-610 | keeps the size of the table for every claim, also for addresses outside it |
| AddressClaim.ReceiveShape | libs/can-utils/j1939acd.c:576-644 | a frame changes the current address only if it is a claim of the own NAME, and brings at most one frame in answer |
| AddressClaim.ReceiveAnswers | libs/can-utils/j1939acd.c:617-632 | a claim that contests the current address is answered with a claim or leaves a retry due |
| AddressClaim.WakeKeeps | libs/can-utils/j1939acd.c:539-567 | timers and the state switch keep what is known of own claims and open contests |
| AddressClaim.ReceiveKeeps | libs/can-utils/j1939acd.c:576-644 | so does every received frame |
| AddressClaim.NextKeeps | libs/can-utils/j1939acd.c:534-645 | so does every step of every daemon and of other nodes |
| AddressClaim.RunKeeps | libs/can-utils/j1939acd.c:534-645 | the invariant holds over every run |
| AddressClaim.SettledHolds | libs/can-utils/j1939acd.c:612-616 | the address of a settled daemon is that of its last claim, which it has received |
| AddressClaim.NoTwoHolders | libs/can-utils/j1939acd.c:534-645 | over every run of any number of daemons, two settled ones share an address only if one was commanded to an address that no node can hold |
| AddressTable.ChosenIsAvailable | libs/can-utils/j1939acd.c:299-332 | an address is chosen exactly when a usable one is free or held by a higher NAME, and then such a one |
| AddressTable.ChosenIsFirst | libs/can-utils/j1939acd.c:299-332 | the wanted address is kept if available, else the lowest free one is taken, else the next one held by a higher NAME |
| AddressTable.NextBeatableIsFirst | libs/can-utils/j1939acd.c:322-330 | the wrapping scan passes over no entry held by a higher NAME |
| AddressTable.ContestDecidedByName | libs/can-utils/j1939acd.c:617-632 | a contested address goes to the lower NAME; the higher one claims another that it may take, or leaves when there is none |
| AddressTable.RecordKeepsUnique | libs/can-utils/j1939acd.c:595-610 | no NAME ever has two entries |
| AddressTable.TableShowsOwners | libs/can-utils/j1939acd.c:595-610 | entry j holds a NAME if and only if its last claim was for j and nobody claimed j since |
| AddressTable.TablesShowOwners | libs/can-utils/j1939acd.c:534-645 | over every run a daemon's table shows the owners as of the frames it has received |
| AddressClash.Clash | libs/can-utils/j1939acd.c:634-643 | builds a run in which a command to an unusable address while a defence is unsent leaves two settled daemons on one address |
| AddressClash.SafeExactly | libs/can-utils/j1939acd.c:534-645 | settled daemons always hold different addresses if and only if commands name usable addresses |
| AddressAnswers.RequestsAnswered | libs/can-utils/j1939acd.c:589-593 | over every run an operational daemon that has received a request for claims has claimed since, or a retry is due |
| AddressAnswers.NewcomerKnows | libs/can-utils/j1939acd.c:534-645 | over every run with real first and commanded addresses, a daemon that has heard the answers to a request has the address of every settled operational daemon in its table |
| AddressAnswers.Raced | libs/can-utils/j1939acd.c:589-593 | builds a run in which a daemon that started without an address answers a request before it has heard its own claim, and so withdraws it |
| AddressAnswers.SentAway | libs/can-utils/j1939acd.c:634-643 | builds a run in which a daemon commanded to an unusable address announces that and stays where it is |
| AddressAnswers.KnownExactly | libs/can-utils/j1939acd.c:534-645 | answers always tell the addresses of the settled daemons if and only if daemons start with real addresses and commands name real ones |
| AddressAnswers.HolderKeeps | libs/can-utils/j1939acd.c:534-645 | as long as nobody else claims its address and no command moves it, a daemon keeps its address and announces no other |
| AddressDaemon.Acd.constructor | libs/can-utils/j1939acd.c:509-519 | the table starts empty with the given range usable, and a saved address outside the range is forgotten |
| AddressDaemon.Acd.LookupName | libs/can-utils/j1939acd.c:136-146 | the loop finds the first entry with the NAME |
| AddressDaemon.Acd.ScanBeatable | libs/can-utils/j1939acd.c:317-331 | the counting loop with its wrap-around finds what the specification does |
| AddressDaemon.Acd.ChooseSa | libs/can-utils/j1939acd.c:299-332 | chooses the address that the specification chooses |
| AddressDaemon.Acd.Claim | libs/can-utils/j1939acd.c:258-278 | binds and claims, and arms the retry when sending fails |
| AddressDaemon.Acd.RecordClaim | libs/can-utils/j1939acd.c:595-610 | updates the table in place as the specification does and nothing else |
| AddressDaemon.Acd.OnClaim | libs/can-utils/j1939acd.c:595-633 | takes over its own claims, answers contests and ignores the rest as the specified daemon does |
| AddressDaemon.Acd.OnWake | libs/can-utils/j1939acd.c:539-567 | the state switch does to the daemon what the specified step does |
| AddressDaemon.Acd.OnReceive | libs/can-utils/j1939acd.c:576-644 | the message switch does to the daemon what the specified step does |
| FrameText.HexRoundTrip | libs/can-utils/lib.c:70-77 | a number that fits is restored from its fixed count of hexadecimal digits |
| FrameText.IdReadBack | libs/can-utils/lib.c:172-193 | the printed identifier of an error, extended or standard frame is read back as that identifier |
| FrameText.DataReadBack | libs/can-utils/lib.c:228-244 | data octets are read back with or without separators, up to the end of the text or a raw DLC |
| FrameText.FdReadBack | libs/can-utils/lib.c:215-244 | flags and up to 64 octets of a CAN FD frame are read back |
| FrameText.RemoteReadBack | libs/can-utils/lib.c:195-213 | length and raw DLC of a remote frame are read back |
| FrameText.PrintedReadBack | libs/can-utils/lib.c:156-258 | any frame whatever, printed, is read back with the right size as the part of it that the text form can show |
| FrameText.RoundTripExact | libs/can-utils/lib.c:156-340 | printing and reading restores identifier, length, flags, raw DLC and data if and only if the frame is well formed |
| FrameSpelling.SpellingRead | libs/can-utils/lib.c:156-258 | every spelling of a frame, with digits in either case, with or without separators, and with text behind it that is not looked at, is read as the frame that it stands for |
| FrameSpelling.SpellingUnread | libs/can-utils/lib.c:156-258 | whatever is read as a frame is a spelling of that frame, so that nothing else is accepted |
| FrameSpelling.CaseBlind | libs/can-utils/lib.c:113-127 | reading a frame does not depend on the case of letters |
| FrameSpelling.PrintedBody | libs/can-utils/lib.c:297-339 | separators are printed between the octets of a classical frame and before each octet of a CAN FD frame, or nowhere |
| FrameTextCode.PutId | libs/can-utils/lib.c:70-77 | filling digits from the last to the first writes the fixed-width number |
| FrameTextCode.PutData | libs/can-utils/lib.c:321-326 | writes the octets with separators between them only, within three characters an octet |
| FrameTextCode.SprintCanframe | libs/can-utils/lib.c:271-340 | the buffer holds the text of the grammar and a terminator and is never overrun |
| FrameTextCode.ReadData | libs/can-utils/lib.c:228-244 | the moving index reads the octets of the grammar or fails where it does |
| FrameTextCode.ParseCanframe | libs/can-utils/lib.c:156-258 | accepts, refuses and fills the frame as the grammar says |
| SdsRepr.CatRepr | libs/hiredis/sds.c:866-895 | appends the quoted form to what is there |
| SdsRepr.ScanEscape | libs/hiredis/sds.c:958-991 | each escape that the writer produces is read as the one octet it stands for |
| SdsRepr.ScanRepr | libs/hiredis/sds.c:951-1028 | a quoted string before a space or the end is one token with exactly those octets |
| SdsRepr.GetToken | libs/hiredis/sds.c:950-1028 | the token loop ends and yields the token of the grammar or fails on unbalanced quotes |
| SdsRepr.SplitLine | libs/hiredis/sds.c:940-1056 | yields the arguments of the grammar, or none at all on unbalanced quotes |
| SdsRepr.SplitRestores | libs/hiredis/sds.c:932-939 | any octet strings, quoted and put on a line with spaces between, are split into exactly those strings |
| SdsRepr.SplitOne | libs/hiredis/sds.c:932-939 | a quoted string alone is exactly one argument, whatever its octets |
| SdsWords.LineRead | libs/hiredis/sds.c:940-1056 | any words, plain, ending in double or in single quotes, with any spaces between them, are split into exactly what they stand for |
| SdsWords.LineUnread | libs/hiredis/sds.c:940-1056 | every line that is split is made of such words, and its arguments are what they stand for |
| SdsWords.PieceRead | libs/hiredis/sds.c:958-991 | in double quotes a backslash and a letter, or two hexadecimal digits, stand for one octet |
| SdsWords.NeverClosed | libs/hiredis/sds.c:986-1003 | a line with a quote that is never closed gives no arguments at all |
| SdsWords.BadlyClosed | libs/hiredis/sds.c:981-985 | nor does one with a closing quote followed by something other than a space |
| DictBuckets.MaskIsRemainder | libs/hiredis/dict.c:124 | masking with a power of two less one is the remainder, so every hash has a bucket |
| DictBuckets.ChainChange | libs/hiredis/dict.c:140-222 | a table keeps standing for a map when one chain changes as the map does |
| DictBuckets.InsertKeeps | libs/hiredis/dict.c:155-161 | a new entry at the head of its chain adds that key to the map |
| DictBuckets.DeleteKeeps | libs/hiredis/dict.c:204-219 | unlinking an entry removes that key from the map and no other |
| DictBuckets.ReplaceKeeps | libs/hiredis/dict.c:187-189 | a new value in an entry changes that key of the map and no other |
| Dict.GrowPower | libs/hiredis/dict.c:311-320 | doubling from a power of two reaches a power of two, and a wanted power of two exactly |
| Dict.NextPower | libs/hiredis/dict.c:311-320 | the doubling loop ends at the first size large enough |
| Dict.MoveEntry | libs/hiredis/dict.c:117-130 | moving an entry adds to the new table exactly the next entry of the old one, never a key it already has |
| Dict.MoveDone | libs/hiredis/dict.c:112-132 | once all entries are counted off, the new table stands for the whole map |
| Dict.Dict.Expand | libs/hiredis/dict.c:92-138 | succeeds exactly if the wanted size is neither too small nor too large; the map is kept, and the count of entries left reaches zero as the code asserts |
| Dict.Dict.ExpandIfNeeded | libs/hiredis/dict.c:300-308 | keeps the map and makes room unless doubling is impossible |
| Dict.Dict.KeyIndex | libs/hiredis/dict.c:325-343 | the bucket of a key that is not there as a 32-bit int, or -1; the table has grown if it was full |
| Dict.Dict.Add | libs/hiredis/dict.c:141-163 | adds exactly the keys that are not there and whose bucket is a non-negative int; one with the bucket 0xFFFFFFFF is refused, and other buckets from 0x80000000 up lie outside the table |
| Dict.IndexFitsInt | libs/hiredis/dict.c:325-343 | every bucket is a non-negative int if and only if the table has at most 2^31 slots |
| Dict.IndexBeyondInt | libs/hiredis/dict.c:325-343 | in a larger table a hash from 0x80000000 up has a negative index, and 0xFFFFFFFF has -1 |
| Dict.FullFails | libs/hiredis/dict.c:141-163 | with 2^31 entries a new key with such a hash is refused or written outside the table |
| Dict.Dict.Replace | libs/hiredis/dict.c:169-191 | sets the value and tells whether the key is new, unless a new key has a negative index |
| Dict.Dict.Delete | libs/hiredis/dict.c:194-222 | removes exactly that key and tells whether it was there |
| Dict.Dict.FindKey | libs/hiredis/dict.c:255-268 | finds the value of every key in the map and nothing else |
| Dict.RunOps | libs/hiredis/dict.c:92-343 | any sequence of up to 2^31 operations gets the answers of a finite map |
| EchoTest.SlotIsRemainder | libs/can-utils/canfdtest.c:326-328 | a cursor that wraps at n stands at its count modulo n |
| EchoTest.CompareFrame | libs/can-utils/canfdtest.c:120-145 | accepts exactly the frame sent with the expected identifier and every octet moved on by the increment |
| EchoTest.CheckFrame | libs/can-utils/canfdtest.c:215-244 | accepts exactly frames with the expected identifier and length whose octets count up modulo 256 |
| EchoTest.CountingIsPing | libs/can-utils/canfdtest.c:215-244 | those are exactly the frames that the generator sends |
| EchoTest.IncFrame | libs/can-utils/canfdtest.c:246-257 | the echo carries the other identifier and every octet incremented modulo 256 |
| EchoTest.RingSend | libs/can-utils/canfdtest.c:313-332 | a slot is reused only after its echo has come |
| EchoTest.RingFull | libs/can-utils/canfdtest.c:348-366 | with a full ring both cursors stand at the frame expected next |
| EchoTest.Generator.Send | libs/can-utils/canfdtest.c:313-332 | sends the next frame and keeps cursors and ring consistent |
| EchoTest.Generator.ExpectsNext | libs/can-utils/canfdtest.c:348-350 | while the ring is full the cursor stands at the next own frame to be heard |
| EchoTest.Generator.ReceiveOwn | libs/can-utils/canfdtest.c:347-355 | complains exactly if the frame is not that in the slot of the cursor, and moves both on; in turn that is the next own frame |
| EchoTest.Generator.ReceiveEcho | libs/can-utils/canfdtest.c:357-372 | complains exactly if the echo comes before its original or differs from it, and stops exactly after the wanted number |
| EchoBus.NextIsExpected | libs/can-utils/canfdtest.c:347-366 | on a lossless bus in one order the next frame is always one that the generator waits for |
| EchoBus.NoDeadlock | libs/can-utils/canfdtest.c:312-374 | while the test runs some party can always move |
| EchoBus.Test | libs/can-utils/canfdtest.c:259-384 | under any schedule and with any number in flight the device under test finds every frame as expected; with two identifiers the test never complains and ends exactly after the wanted number of echoes; with one it has complained at the latest when all n frames and their n echoes are taken in, whatever their order on the bus |
| EchoBus.Complete | libs/can-utils/canfdtest.c:292-384 | in whatever order the parties that can move do so, the test comes to its end, with a complaint if and only if both directions share an identifier |
| EchoBus.EchoIsNextPing | libs/can-utils/canfdtest.c:246-257 | with one identifier an echo equals the next frame of the generator, so that early echoes may pass for own frames |
| EchoBus.LastFails | libs/can-utils/canfdtest.c:347-355 | the last echo is compared with the last frame sent, and differs from it |
| BitTiming.Turn | libs/can-utils/can-calc-bit-timing.c:1329-1337 | one turn tries the specified second segment, in 32-bit unsigned arithmetic |
| BitTiming.UpdateSpt | libs/can-utils/can-calc-bit-timing.c:1318-1352 | returns the smaller error of the two turns and its segments; when neither is in time the segments keep their values |
| BitTiming.SptErrorMinimal | libs/can-utils/can-calc-bit-timing.c:1318-1352 | no legal second segment with a sample point that is not late has a smaller error than the two turns |
| BitTiming.SptErrorReached | libs/can-utils/can-calc-bit-timing.c:1318-1352 | unless the nominal sample point falls into the first quantum, the error is that of a legal second segment |
| BitTiming.BrpIsMultiple | libs/can-utils/can-calc-bit-timing.c:1389-1392 | the prescaler is a multiple of the hardware's step |
| BitTiming.SearchDown | libs/can-utils/can-calc-bit-timing.c:1381-1416 | despite its early end the loop returns a lexicographically least cost, and one whenever there is a candidate; among equals the smallest candidate, or the largest with no error at all |
| BitTiming.Search | libs/can-utils/can-calc-bit-timing.c:1354-1416 | the result is admissible, within the prescaler limits, and no admissible candidate has a smaller rate error, or the same and a smaller sample point error; of equally good ones it is the smallest, or the largest if there is no error at all |
| BitTimingOptimal.NearerIsBetter | libs/can-utils/can-calc-bit-timing.c:1386-1395 | of two prescalers on one side of the exact one, the nearer gives the smaller rate error |
| BitTimingOptimal.StandIsBetter | libs/can-utils/can-calc-bit-timing.c:1381-1392 | where the nearest prescaler on its side is tried, a candidate is at least as near to the exact one and at least as good as any given prescaler |
| BitTimingOptimal.NearTriedExactly | libs/can-utils/can-calc-bit-timing.c:1386-1392 | a prescaler on the same side and at least as near as a given one is tried if and only if rounding to the step meets the limits on that side |
| BitTimingOptimal.BeatsAll | libs/can-utils/can-calc-bit-timing.c:1354-1416 | the result is at least as good as any prescaler of the hardware whose side is covered, with any legal segments in time |
| BitTimingOptimal.StepOfOne | libs/can-utils/can-calc-bit-timing.c:1386-1392 | with a step of one a side is covered if and only if the exact prescaler lies within the limits or next to the lower one |
| BitTimingOptimal.OutOfReach | libs/can-utils/can-calc-bit-timing.c:1386-1395 | with a step of one the search tries a prescaler for a number of quanta if and only if the exact one lies there |
| BitTimingOptimal.NothingBeyond | libs/can-utils/can-calc-bit-timing.c:1386-1395 | a concrete case with a step of one in which nothing is found although a prescaler exists, because the exact one is too large |
| BitTimingOptimal.StepOfTwoMisses | libs/can-utils/can-calc-bit-timing.c:1386-1392 | a concrete case with a step of two in which the best prescaler is never tried |
| Bridge.RunRecalls | src/can2rest.cpp:250-305 | over every run the octets shown for an id are those of the last frame with it that was sent or received, and its type is the first that it was given |
| Bridge.ReadsLast | src/can2rest.cpp:250-305 | from the start, what is read for an id is the last frame with it under its first type, wherever its octets suffice |
| Bridge.ReceivedReads | src/can2rest.cpp:252-257 | a received frame is shown at once, as the type that its id has |
| Bridge.ReadShows | src/can_frame_to_json.cpp:67-94 | the payload read is what the octets stand for: low octet first, first octet, or all of them |
| Bridge.SentShows | src/can2rest.cpp:278-303 | whatever type the id has, the octets shown are those of the value sent last |
| Bridge.IntDecodes | src/frame_send_queue.cpp:18-42 | the two octets of a 16-bit value are shown as the value modulo 65536 |
| Bridge.StrDecodes | src/frame_send_queue.cpp:68-97 | the octets of a string are shown as its first 64 octets |
| Bridge.StoredDecodes | src/can_hashtable.cpp:42-74 | storing makes the payload readable even when the duplicate check keeps an older message |
| Bridge.SentReadsBack | src/can2rest.cpp:278-303 | once the loop has taken a message for an unregistered id, reading the id gives that message's payload under its type |
| Bridge.ReadsBackLater | src/can2rest.cpp:250-305 | and keeps giving it over any events until another frame with that id comes |
| Bridge.RoundTrip | src/can2rest.cpp:250-305 | a sent bool, integer, string or array reads back as the bool, the integer modulo 65536, the first 64 octets or the first octet |
| BridgeCode.State.EnqueueInt16 | src/frame_send_queue.cpp:18-42 | appends one frame of two octets, the low one first |
| BridgeCode.State.EnqueueBool | src/frame_send_queue.cpp:44-65 | appends one frame of one octet |
| BridgeCode.State.OnFrame | src/can2rest.cpp:252-257 | a received frame is stored as the specified step does |
| BridgeCode.State.EnqueueBytes | src/frame_send_queue.cpp:68-129 | appends one frame with the first 64 octets at most |
| BridgeCode.State.Dequeue | src/frame_send_queue.cpp:132-149 | takes the oldest message, or none from an empty queue |
| BridgeCode.State.PutMessage | src/can_hashtable.cpp:42-74 | stores the message unless the cached one has the same hash |
| BridgeCode.State.ReadPayload | src/can_frame_to_json.cpp:21-96 | returns the payload under the registered type and the octets of the frame, and registers unknown ids as NONE |
| BridgeCode.State.OnSend | src/can2rest.cpp:278-303 | registers the type of new ids only, and stores the message |
| BridgeCode.StepConserves | src/frame_send_queue.cpp:132-149 | no locked section loses or reorders messages, and a pop past the test finds one |
| BridgeCode.RunConserves | src/frame_send_queue.cpp:7-149 | under every interleaving of requests with the one consumer: enqueued is dequeued followed by the queue, and no pop hits an empty queue |

## Left out

Not modelled at all:

- Sockets, TLS, event libraries, terminal output, option parsing, HTTP, JSON, INI and Redis plumbing, and the CAN tools built on `sscanf`, `strtoul` or libc.
- Allocation failure: every allocation succeeds, except that the hash table refuses sizes that `calloc()` cannot represent.
- MONITOR mode of the asynchronous context, which re-pushes its callback, and the connect and disconnect callbacks.
- RESP doubles: whether `strtod()` accepts a text is a parameter, and a double is represented by its text.
- The printf-style formatter of hiredis, and `redisFormatSdsCommandArgv`, which prints the same command into a growing string.
- The bit timing algorithm of Linux 3.18, and in the 4.8 one the 5% threshold and the derived fields: they follow from the chosen quanta and prescaler by formula.
- Frame lengths of CAN FD, which are formulas that the source itself calls not correct, and the data-phase length.
- Iteration over the hash table, its release, and the other string functions of `sds.c`.
- The identifier filter, timestamps, sync counter and Redis copies of the bridge's main loop; receiving a filtered-out frame changes nothing.

Modelled with less than the source has, or under a condition:

- RespReader.Reader: lengths and indices are unbounded; a line of 2^31 octets, an aggregate index beyond `int` and a bulk length within 2 of the 64-bit maximum are not told apart from smaller ones. The standard object functions are assumed to be installed.
- RespArena.PlaceComplete: reply objects live in one arena in order of creation and refer to each other by index; freeing them is not modelled.
- RespFormat.FormatCommandArgv: sizes do not wrap at 64 bits; arguments are octet strings with their lengths, not NUL-terminated ones.
- AsyncContext.Context.Run: the lists are sequences here, and `CallbackList.List` shows that the linked lists do what sequences do; commands arrive as parsed, and replies as the reader yields them; a reply with fewer elements than the code looks at counts as a failed assertion; the output buffer is counted in commands; per-channel counters carry over within one SUBSCRIBE as in the code.
- CanCrc.CalcBitmapCrc: what the code does after a read outside the bitmap; bitmaps of 2^29 octets and more, whose positions do not fit 32 bits.
- CanFrameLength.CflExact: requires at most eight data octets, as the 16-octet bitmap does.
- Dict.Dict.Add: what the code does after a write outside the table.
- AddressClaim.NoTwoHolders: frames reach every daemon in one order, a send either fails or reaches all, and no foreign node claims under a daemon's NAME. The waiting times are not modelled: a timer that is due may fire at any moment. Errors that end the program at once are a send that fails in the first state and having no address.
- FrameTextCode.ParseCanframe: characters behind the end of the text read as its terminator, also the ninth one of a shorter text.
- Dict.RunOps: chains are sequences rather than linked cells; keys are compared as octet strings, and the memory for 2^31 slots is taken to be there.
- SdsRepr.SplitLine: `isprint()` may be that of any locale that does not print NUL; `isspace()` and `isxdigit()` are those of the C locale.
- EchoBus.Test: the bus loses and reorders nothing, and the device answers every frame of the generator once; identifiers do not wrap.
- BitTiming.Search: requires that no 32-bit product wraps. Nothing is promised about the lower limit of the first segment, which the code does not enforce.
- BitTimingOptimal.BeatsAll: covers the prescalers on those sides of the exact one where `BitTimingOptimal.NearestIsTried` holds; on the others `BitTimingOptimal.NearTriedExactly` shows that nothing as near is tried for that number of quanta.
- Bridge.RoundTrip: the hash of the duplicate check is assumed free of collisions; requests and the main loop interleave at the queue only, and the octets behind a payload are arbitrary.
