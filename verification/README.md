# A verified model of the gateway's core

This project models seven components of the gateway and proves what they promise.

- The **connection index** (`rbtree.c`, `list.h`, `connection.c`). `RbTree`, `RbRotate`, `RbInsert`, `RbRebalance`,
  `RbErasure` and `RbWalk` are the pointer red-black tree, with its rotations and repairs rewriting the links in place.
  `Lists` holds the circular lists. `Connections` keeps the tree, the live list and the free list in step with a
  *book* (`Book`) that says which connection is live, free or handed out and in what order; `BookRuns` follows the book
  over whole runs.
- The **receive path** (`kfifo.c`, `protocol/protocol.c`, the put/scan/get loop of `event.c`). `Kfifo` is the ring
  buffer with 32-bit counters, `Frames` says what frames, scanning and draining mean without any state, `Protocol` is
  the scanner and the loop over a connection's FIFO.
- The **events** (`event.c`) that bring the two together. `Peers` says what opening, messages, closing and sweeping mean
  for a map from descriptors to peers; `Events` performs them on the heap, with the registry and the FIFOs, and proves
  that any run of events does what `Peers` and `BookRuns` say. In `Peers` it follows that a client is served as if it
  were alone.
- **JSON** (`cJSON.c`). `Json` gives the text of a tree; `JsonNumbers`, `JsonStrings` and `JsonParse` are the parser;
  `JsonPlain` and `JsonPrint` (with `JsonBuffer`) the two printers; `JsonMinify` the minifier. `JsonNumerals`,
  `JsonGrammar` and `JsonErrors` say, without the parser, what a number means, which texts stand for a tree and where
  others break, and prove that the parser does just that. `JsonRoundTrip`, `JsonCompact`, `JsonFormat` and `JsonMeaning`
  prove that the four undo and refine one another and keep what a text means.
- The **message queue** (`framework/rpc/queue.c`). `Queue` is the linked list, `QueueRuns` any number of threads on it.
- The **request/response handshake** (`framework/rpc/rpc.c`). `RpcRuns` is any number of threads in `rpcSendFrame` and
  in `rpcProcess`.
- The **encoders** (`bytebuffer.h`, `gateway.c`, `protocol/*`). `ByteBuffer`, `Framing`, `Gateway`, `Login` and
  `Responses` write and parse the messages; `LoginDecoder` is an independent decoder for the login message.

`Arithmetic`, `Sequences`, `Bytes`, `Options`, `CString` and `Threads` hold what several of them need.

State that the source changes in place is changed in place here: tree nodes, list heads, the FIFO, print buffers, the
minified array and the queue are classes and arrays, and their methods are proved against functions on values
(`Inorder`, `Book`, `Contents`, `Print`, `Minified`, `Framed`). What the source promises is then proved of these
functions. Threads are modelled as state machines: a run is a sequence of steps by arbitrary threads, each step one
semaphore operation or one stretch of code between two of them.

## What the proofs found

Where the code does less than its comments suggest, the model follows the code and says exactly when it does what is
wanted.

- As long as neither counter has wrapped, what a drain leaves in the FIFO is stuck, whatever else comes, exactly when it
  is a whole frame (whose id is then 0 or 255, the scanner's own signals) or begins with a length from 1025 to 2048, of
  which the high byte from 5 to 7 is enough (`Frames.StuckWhenJammed`; one input each in `Frames.StuckInputs`). A frame
  with any other id is dispatched (`Frames.DispatchedUnlessMistakable`).
- The scanner waits where waiting can lead to a frame, and in two more cases where it cannot; `Frames.WaitsInVain` names
  them, `Frames.WaitIsUnfinished` says that there are no others, and `Frames.VainInputs` gives an input for each.
- `kfifo_pop` compares the counters directly, so it drops nothing once the tail counter alone has wrapped
  (`Kfifo.Kfifo.Pop`, `Kfifo.Kfifo.AheadUnlessWrapped`). While the tail counter has not followed the head counter through
  2^32, a dispatch takes its bytes from the front of the FIFO instead of from the frame; the frames are the right ones
  exactly when nothing had to be skipped before them (`Frames.LaggingFrames`), and one stray byte is enough to spoil them
  (`Frames.StrayByte`). Bytes that the scanner would all skip then stay for good exactly when no frame fits behind them
  any more (`Frames.BarrenWhenFull`); one read of 1024 zeros at the wrap is an input (`Peers.WrapHalts`). A peer whose
  bytes are stuck in either way is never served again, whatever it sends and however often the counters wrap
  (`Peers.NeverServedAgain`), and since each message renews its time, no sweep ends that.
- On an empty FIFO `protocol_check` assigns to its pointer parameter, not through it; the caller's initial 0 is what it
  reports (`Protocol.ProtocolCheck`, the parameter `idIn`).
- A response that arrives between a timeout and the reset of the expected id is left in `srspSem` and completes the next
  request, whatever its subsystem (`RpcRuns.DebtHappens`, `RpcRuns.StaleResponse`). A request that opens with nothing
  posted or about to be posted is completed only by a response matched since (`RpcRuns.OwnResponse`).
- What the second pass of parse_string stores fits the space that the first has counted, whatever follows the literal,
  exactly when no escape in it reaches over its closing quote (`JsonStrings.FitsWhateverFollows`); an escape that takes
  the quote for one of its digits does (`JsonStrings.RunsOver`). Every well-formed literal fits (`JsonStrings.Unescapes`).
- The parser takes more than RFC 8259 allows: in numbers a leading zero, and no digits before the point or behind the
  letter of a power (`JsonNumerals.NumberExactly`); in strings raw control characters and malformed escapes, of which
  those of NUL and of unpaired surrogates and those without four digits store nothing (`JsonStrings.NothingStored`,
  `JsonStrings.UnpairedStored`, `JsonStrings.NoDigitsStored`).
- cJSON_Minify reads past the terminator exactly when a literal or a block comment is not closed (`JsonMinify.Minify`,
  `JsonMinify.UnclosedInputs`).
- On a big-endian host bytebuffer_writemac stores a number without its two lowest bytes instead of the six lowest, which
  is right exactly for d / 2^16 == d % 2^48 (`ByteBuffer.MacOnBigEndianHost`) and wrong for 1
  (`ByteBuffer.MacOneOnBigEndianHost`).
- The buffered object printer loses its return position to a loop counter when it formats; only the outermost position
  is used, and there it is right (`JsonPrint.Reported`, `JsonPrint.PrintBuffered`).
- The login message can be decoded exactly when its counts and its length fit their fields
  (`LoginDecoder.LoginDecodesExactlyWhenItFits`).

## Model

| member | source | states |
|---|---|---|
| RbTree.PlugRB | rbtree.c:65-128 | a subtree that fits its place in black height and colour makes a red-black tree of the whole |
| RbTree.UnplugRB | rbtree.c:130-220 | and every subtree of a red-black tree fits the place it is in |
| RbTree.Locate | rbtree.c:323-363 | every node of a tree is at the focus of a context, and plugging its subtree back gives the tree |
| RbTree.LeftmostFirst | rbtree.c:299-309 | the leftmost node is the first in order |
| RbRotate.ReplaceChild | rbtree.c:33-41 | the link above a subtree, in its parent or in the root, leads to the new top |
| RbRotate.RotateLeft | rbtree.c:25-43 | the heap around the node becomes the left rotation of the subtree, every parent link included |
| RbRotate.RotateRight | rbtree.c:45-63 | the mirror image |
| RbRotate.RotLeftInorder | rbtree.c:25-43 | a left rotation keeps the order of the nodes |
| RbRotate.RotRightInorder | rbtree.c:45-63 | so does a right rotation |
| RbInsert.FlipRB | rbtree.c:75-85 | recolouring parent and uncle moves the only red-red conflict up to the grandparent and keeps black heights |
| RbInsert.SpinLeftOk | rbtree.c:87-98 | rotating at the grandparent ends the conflict on the left side with the same black height and order |
| RbInsert.SpinRightOk | rbtree.c:112-123 | the same on the right side |
| RbInsert.InsertStepLeft | rbtree.c:73-98 | one round of the repair below a left parent either ends it or moves it two levels up |
| RbInsert.InsertStepRight | rbtree.c:99-124 | the same below a right parent |
| RbInsert.RbLinkNode | rbtree.c:388-394 | the node takes the empty slot as a red leaf with its parent link |
| RbInsert.RbInsertColor | rbtree.c:65-128 | from one possible red-red conflict at the new node to a red-black tree, order kept |
| RbInsert.RbInsertAt | rbtree.c:65-128 | linking and repairing give a valid tree whose order has the new node between the nodes before and after its slot |
| RbRebalance.LowerLeftOk | rbtree.c:139-146 | a red sibling of a short left subtree is rotated up; the subtree is as short, now below a red parent |
| RbRebalance.RiseLeftOk | rbtree.c:147-155 | two black nephews: the sibling turns red and the shortfall moves to the parent, or ends there if it is red |
| RbRebalance.OuterLeftOk | rbtree.c:158-167 | with a red nephew, after the rotation of an inner one the outer one is red; black height and order of the sibling kept |
| RbRebalance.SettleLeftOk | rbtree.c:156-174 | a red nephew settles the shortfall: the whole tree is red-black again and its order kept |
| RbRebalance.LowerRightOk | rbtree.c:179-186 | the four cases again for a short right subtree: red sibling |
| RbRebalance.RiseRightOk | rbtree.c:187-195 | black nephews |
| RbRebalance.OuterRightOk | rbtree.c:198-207 | red nephew, rotated outwards |
| RbRebalance.SettleRightOk | rbtree.c:196-214 | red nephew, settled |
| RbRebalance.EraseColor | rbtree.c:130-220 | from a tree with one place a black node short to a red-black tree with the same order, for every shape |
| RbErasure.SuccessorBelow | rbtree.c:233-237 | the leftmost node of the right subtree and the way down to it |
| RbErasure.Unlink | rbtree.c:276-289 | a node with at most one child is cut out and its child takes the slot |
| RbErasure.Substitute | rbtree.c:256-272 | the successor takes the node's colour, links and slot, in the parent and in the children |
| RbErasure.EraseInner | rbtree.c:231-274 | the two-child case, the successor being the node's own right child or further down: the order loses the node, the repair knows the place that may be short |
| RbErasure.RbErase | rbtree.c:222-294 | for any node of any valid tree: the tree stays valid and its order is the old one without the node |
| RbWalk.RbFirst | rbtree.c:299-309 | the first node in order, or null for an empty tree |
| RbWalk.RbLast | rbtree.c:311-321 | the last node in order |
| RbWalk.RbNext | rbtree.c:323-344 | the node after this one in order, or null |
| RbWalk.RbPrev | rbtree.c:346-363 | the node before this one in order, or null |
| RbWalk.NextOfIndex | rbtree.c:323-344 | next leads from each index of the order to the following one and from the last to null |
| RbWalk.OrderDistinct | rbtree.c:323-363 | no node comes twice in the order of a tree |
| RbWalk.WalksBothWays | rbtree.c:323-363 | in every valid tree prev leads back from where next led, and next from where prev led |
| RbWalk.HeightBound | connection.c:132-149 | a red-black tree is at most twice as high as it is black-high |
| RbWalk.SizeBound | connection.c:132-149 | a tree of black height b has at least 2^b - 1 nodes |
| RbWalk.LogarithmicPath | connection.c:132-149 | h nodes on a way down a valid tree of n nodes: 2^ceil(h/2) <= n + 1 |
| Lists.ListAdd | list.h:53-61 | the new entry is linked between its two neighbours, whose outer links stay |
| Lists.ListAddTail | list.h:86-89 | the ring is the old one with the entry at its end |
| Lists.ListDelInit | list.h:148-152 | the ring is the old one without the entry, which becomes a ring of its own |
| Lists.ListMoveTail | connection.c:204-205 | out of one ring and to the end of another, both kept |
| Kfifo.MaskedStep | kfifo.c:82-88 | masking a wrapping counter finds its place in the ring, n steps on it the place n further, through the 32-bit wrap |
| Kfifo.WindowAppend | kfifo.c:81-86 | data written behind a window in one piece or two is the window with the data appended |
| Kfifo.WindowPieces | kfifo.c:112-117 | reading a window in one piece or two gives its bytes in order |
| Kfifo.WrapDistance | kfifo.c:88-119 | the distance between the counters follows both of them modulo 2^32 |
| Kfifo.Kfifo.Reset | kfifo.h:48-51 | an empty FIFO |
| Kfifo.Kfifo.Len | kfifo.h:57-60 | the number of bytes it holds |
| Kfifo.Kfifo.Put | kfifo.c:74-91 | appends as much of the data as there is space for and says how much |
| Kfifo.Kfifo.Get | kfifo.c:105-122 | takes as many bytes from the front as asked for and held |
| Kfifo.Kfifo.GetAhead | kfifo.c:143-158 | copies them and leaves the FIFO alone |
| Kfifo.Kfifo.Pop | kfifo.c:124-129 | drops the front byte just when the tail counter is numerically ahead |
| Kfifo.Kfifo.AheadUnlessWrapped | kfifo.c:124-129 | on a FIFO that holds something that is so exactly when the tail counter has not wrapped alone |
| Book.Connection.constructor | connection.c:11-21 | a new connection: empty FIFO of 1024, free type, descriptor 0 |
| Book.Connection.Clear | connection.c:73-78 | a recycled connection: empty FIFO, free type, descriptor 0, tree links cleared |
| Book.CreatedSound | connection.c:68-71 | handing out a new connection keeps the book sound |
| Book.ReusedSound | connection.c:72-80 | so does handing out the first free one |
| Book.EnlistedSound | connection.c:188-199 | so does enlisting one that was handed out |
| Book.RetiredSound | connection.c:201-207 | so does retiring a live one |
| Book.SweepStep | connection.c:108-118 | one round of the sweep is one step from the book half swept to the book swept one further |
| Book.SweepEnd | connection.c:108-118 | and at the end it holds the connections that are not overdue, in their old order |
| BookRuns.ApplySound | connection.c:61-207 | every operation keeps the book sound and loses no connection |
| BookRuns.RegistryAgrees | connection.c:61-207 | after any run: index and live list hold the same connections, each once; every connection ever taken is live, free or handed out, and only one of these |
| BookRuns.FirstRetiredFirst | connection.c:68-118 | in any run connections are handed out again in the order in which they were retired, a sweep retiring in the order of the live list |
| Connections.Registry.GetFreeConn | connection.c:68-82 | a new connection or the first free one, with an empty FIFO; no other connection changes |
| Connections.Registry.Init | connection.c:28-31 | descriptor and type of a connection not yet live |
| Connections.Registry.GetConn | connection.c:132-149 | the live connection of that descriptor, or null and there is none; the nodes visited obey 2^ceil(h/2) <= n + 1 |
| Connections.Registry.FindSlot | connection.c:164-186 | the live connection that has the descriptor, or the empty slot in the tree where it belongs |
| Connections.Registry.Insert | connection.c:188-199 | tree, live list and book agree after a connection with a new descriptor is enlisted at its sorted place and at the end of the list |
| Connections.Registry.Delete | connection.c:201-207 | tree, live list and free list agree after a live connection is retired |
| Connections.Registry.CheckStatus | connection.c:108-118 | the safe iteration over a list that shrinks retires exactly the overdue connections, in order; of every connection only tree node and list link may change |
| Connections.Registry.Dump | connection.c:152-162 | from the first node by next, every descriptor once, in ascending order |
| Connections.RetiredSorted | connection.c:201-203 | the index stays sorted |
| Connections.SortedInsert | connection.c:164-186 | also when a descriptor is put in its slot |
| Frames.ProtocolChecksum | protocol/protocol.c:16-24 | the exclusive or of all bytes |
| Frames.AcceptIsFrame | protocol/protocol.c:98-120 | the scanner accepts n bytes exactly when a whole valid frame of n bytes begins there |
| Frames.WaitIsUnfinished | protocol/protocol.c:108-135 | it waits exactly when the bytes can be continued to a frame, except in the two cases named |
| Frames.FirstStopHoldsOn | protocol/protocol.c:90-139 | the position where scanning stops is the first one where a frame begins, can still begin, or is waited for in vain |
| Frames.DrainSplits | event.c:104-111 | draining what came first and then the rest with what was kept dispatches the same frames as draining all at once |
| Frames.DrainSettles | event.c:104-109 | what a drain keeps is kept by the next one too |
| Frames.ChunkingIrrelevant | event.c:100-114 | draining a stream in chunks dispatches the frames of the concatenation |
| Frames.SameStreamSameFrames | event.c:100-114 | so two ways to cut the same bytes drain to the same frames and the same rest |
| Frames.DispatchedUnlessMistakable | event.c:107-109 | a whole frame at the head is dispatched exactly when its id is neither 0 nor 255 |
| Frames.DispatchedUnlessSignal | event.c:107-109 | in numbers: for every frame at the head and whatever follows, it is dispatched if its id is neither 0 nor 255, and otherwise nothing is |
| Frames.OnlyFrames | event.c:104-111 | and whatever a drain dispatches is a frame with such an id |
| Frames.StuckWhenJammed | event.c:104-111 | with no counter wrapped, bytes that a drain leaves can never move on if and only if they are a whole frame or their length bytes claim more than the FIFO holds |
| Frames.StuckInputs | protocol/protocol.c:100-124 | an input for each of these cases |
| Frames.StuckForGood | event.c:100-114 | once stuck, no run of chunks that fit dispatches anything again |
| Frames.LaggingFrames | kfifo.c:124-129 | while the tail counter lags behind the wrap, the frames dispatched are the right ones if and only if nothing had to be skipped before them |
| Frames.BarrenWhenFull | event.c:104-111 | while the tail counter lags, bytes that would all be skipped never let a frame through again if and only if no frame fits behind them |
| Frames.VainInputs | protocol/protocol.c:108-135 | an input for each of the two ways to wait in vain |
| Protocol.HandedFull | event.c:102-111 | a full FIFO with nothing to dispatch stays as it is while the tail counter lags |
| Protocol.HandedStuck | event.c:102-111 | stuck bytes stay stuck in every state of the counters, with whatever is received behind them |
| Peers.NeverServedAgain | event.c:73-111 | in any run of events, from a peer whose bytes are stuck, or barren while its tail counter lags, nothing is dispatched any more and nothing it holds is dropped |
| Peers.WrapHalts | event.c:100-111 | one receive of 1024 zeros at the wrap brings that about |
| Frames.StrayByte | kfifo.c:124-129 | a stray byte before a frame makes the loop dispatch something else then |
| Protocol.ProtocolCheck | protocol/protocol.c:81-140 | drops exactly the positions before the stop, reports the length and id of the frame there, a half packet or nothing, and leaves the other bytes alone |
| Protocol.JudgeAt | protocol/protocol.c:91-135 | the branches at one position decide as the definition of a frame says |
| Protocol.RecvMsg | event.c:100-114 | from every state of the counters: as much as fits is put, the loop ends, and what it dispatches and keeps is the drain that lags by the bytes the head counter no longer counts |
| Protocol.RecvAll | event.c:100-114 | a run of receives that fit, before the head counter wraps: the frames and the rest of draining the chunks one after another |
| Protocol.RecvBoth | event.c:100-114 | so two connections that are fed the same bytes, cut in two ways, dispatch the same frames and keep the same bytes |
| Peers.AsIfAlone | event.c:73-111 | in any run of events, a peer that is neither closed nor swept is served the frames of its own stream, and keeps its rest, whatever happens to the others meanwhile |
| Peers.ServedFromOpening | event.c:41-111 | from its opening on, those are exactly the frames of the concatenation of what it sends |
| Peers.StaysWhileHeard | connection.c:108-118 | in any run of events a client or server stays if and only if it is not closed and at no sweep has been silent for longer than the timeout since it was heard last |
| Peers.StaysUntilClosed | connection.c:108-118 | a peer of any other type stays until it is closed |
| Peers.RunSplits | eventhub.c:126-176 | a run of events cut anywhere is its two parts one after the other |
| Events.OpenConn | event.c:41-47 | a connection taken, named and enlisted: the registry is in order and knows one descriptor more, with an empty FIFO |
| Events.CloseConn | event.c:783-788 | the descriptor is known no more, if it was, and nothing else changes |
| Events.CheckConns | connection.c:108-118 | exactly the peers that have been silent too long are known no more |
| Events.MessageConn | event.c:73-111 | a client or server is drained and its time set, a check command sweeps, and nothing else changes; the frames are those of the peer |
| Events.RunEvents | eventhub.c:66-182 | any run of events on the heap keeps the registry in order, knows of its descriptors what the peers say, dispatches their frames, and its book is that of a run of possible operations |
| Events.Start | eventhub.c:66-182 | the same from an empty registry |
| Protocol.PutData | connection.c:33-35 | what does not fit is dropped without notice |
| JsonRoundTrip.DigitsAre | cJSON.c:157-161 | the digits written for a number denote it, without a leading zero |
| JsonNumbers.DigitRun | cJSON.c:102-107 | the loop over a run of digits reads it to its end and has its decimal value |
| JsonNumbers.NumberAt | cJSON.c:96-115 | sign, optional zero, digits, fraction only before a digit, signed exponent; the value over the reals |
| JsonNumerals.NumeralParses | cJSON.c:96-115 | every number of section 6 of RFC 8259, with fraction and power, is read as the value it denotes |
| JsonNumerals.NumberExactly | cJSON.c:96-115 | at any place of any text, a value and an end are read if and only if a numeral with that value stands there up to that end and no byte more belongs to it; besides those of RFC 8259, one leading zero is taken, and no digits before the point or behind the letter |
| JsonStrings.ContinuationBits | cJSON.c:233 | or with 0x80 and and with 0xBF is 0x80 plus the six low bits |
| JsonStrings.Transcode | cJSON.c:230-238 | the bytes stored backwards by masks and shifts are those of section 3 of RFC 3629 |
| JsonStrings.CodePoint | cJSON.c:217-239 | a \u escape or a surrogate pair; NUL and unpaired surrogates are dropped |
| JsonStrings.HexDigits | cJSON.c:178-189 | the n-th of 0123456789ABCDEF, and of 0123456789abcdef, is a digit of value n |
| JsonStrings.OnlyHexDigits | cJSON.c:178-189 | and nothing else is a digit |
| JsonStrings.QuadIs | cJSON.c:178-189 | the four digits of a 16-bit number, each in either case, have its value |
| JsonStrings.CodeMeans | cJSON.c:217-239 | each 16-bit character but NUL has an escape that means its UTF-8 bytes |
| JsonStrings.PairMeans | cJSON.c:222-227 | and each of 0x10000 to 0x10FFFF a pair, for any ten high and ten low bits |
| JsonStrings.LettersMean | cJSON.c:210-216 | what the eight letters of short escapes stand for |
| JsonStrings.Utf8IsRead | cJSON.c:230-238 | the bytes of a code point are read back as it by their high bits, and are as few as can be |
| JsonStrings.NothingStored | cJSON.c:220-224 | the escape of NUL, of a low surrogate, and of a high one that no escape follows stores nothing and is passed |
| JsonStrings.UnpairedStored | cJSON.c:224-226 | nor does a high surrogate with another escape that is no low one, and both are passed |
| JsonStrings.NoDigitsStored | cJSON.c:178-220 | nor an escape with a byte that is no digit |
| JsonStrings.StringAt | cJSON.c:193-250 | the two passes: what the second stores and where it stops, and the size the first asks for |
| JsonStrings.Unescapes | cJSON.c:193-250 | for every well-formed literal the result is the text of section 7 of RFC 8259 and fits the size of the first pass |
| JsonStrings.DecodedFits | cJSON.c:198-247 | for any text, what the second pass stores fits the size of the first if it stops no later |
| JsonStrings.FitsWhateverFollows | cJSON.c:198-247 | up to the quote where the first pass stops: what is stored fits whatever follows if and only if no escape, read from the text alone, reaches over that quote |
| JsonStrings.RunsOver | cJSON.c:198-247 | and a text where it stops later and does not fit |
| JsonParse.SkipBlanks | cJSON.c:322 | over bytes from 1 to 32 |
| JsonParse.ValueAt | cJSON.c:358-370 | the branches of parse_value, failures with their position included |
| JsonParse.ItemsAt | cJSON.c:416-431 | the loop over the items reads what the grammar says, in order |
| JsonParse.MembersAt | cJSON.c:524-547 | the loop over the members likewise |
| JsonParse.Parse | cJSON.c:325-339 | leading blanks, one value, and with the option only blanks up to the terminator |
| JsonGrammar.StringParses | cJSON.c:193-250 | a literal with whatever escapes is read as the text it means |
| JsonGrammar.LaidParses | cJSON.c:358-547 | a text of a tree with any blanks between its tokens, and strings and numbers as RFC 8259 has them, is parsed to the tree and to its end |
| JsonGrammar.LaidTextParses | cJSON.c:325-339 | also with blanks before and behind it, to the end of the whole text |
| JsonGrammar.ParsesExactlyLaid | cJSON.c:358-547 | at any place of any text, a tree and an end are parsed if and only if a text of the tree stands there up to that end, with the strings and numbers that parse_string and parse_number take |
| JsonErrors.FailsExactly | cJSON.c:358-547 | and parsing fails with a position if and only if the text breaks there: a value, a name, a colon, or a comma or closing bracket behind an item or a member has to stand there and does not |
| JsonErrors.TextExactly | cJSON.c:325-339 | the same for a whole text, with and without the terminator asked for: when it is parsed |
| JsonErrors.TextFailsExactly | cJSON.c:325-339 | and when and where it fails |
| JsonRoundTrip.NumberParses | cJSON.c:96-176 | the text of an int number is read back as that number, up to a byte that ends it |
| JsonRoundTrip.EscapeForms | cJSON.c:288-307 | a quote, a backslash and five control characters are escaped by a letter, the others by four digits, and nothing else |
| JsonRoundTrip.UnitsMean | cJSON.c:288-307 | the printer writes well-formed literals that mean the string |
| JsonRoundTrip.PrintIsLaid | cJSON.c:373-659 | every print of a tree, formatted or not, is such a text |
| JsonRoundTrip.ValueParses | cJSON.c:358-659 | wherever the print of a tree stands in a text, at any depth, formatted or not, parsing there gives the tree and stops at its end |
| JsonRoundTrip.PrintThenParse | cJSON.c:325-659 | parsing a whole print gives an equal tree and stops exactly at the end of the text |
| JsonRoundTrip.PrintIsInjective | cJSON.c:344-345 | different trees print differently |
| JsonMinify.CopyLiteral | cJSON.c:758 | a literal is copied down whole, escaped quotes included; one that is not closed leads past the terminator |
| JsonMinify.Minify | cJSON.c:747-762 | for every text: nothing past the terminator is read if and only if every literal and block comment is closed, and then the tokens that are neither blank nor comment are left, in place and terminated |
| JsonMeaning.LineCommentGoes | cJSON.c:756 | a line comment goes, up to the first line feed or the end |
| JsonMeaning.BlockCommentGoes | cJSON.c:757 | a block comment goes, up to the first star before a slash; without one the text is not closed |
| JsonMeaning.BlankGoes | cJSON.c:752-755 | tab, line feed, carriage return and space go |
| JsonMeaning.OtherByteStays | cJSON.c:759 | any other byte outside literals stays |
| JsonMeaning.LiteralPasses | cJSON.c:758 | a well-formed literal stays whole |
| JsonMeaning.MinifyKeepsValue | cJSON.c:747-762 | for every text of a tree, with any blanks, escapes and numbers: nothing past the terminator is read, and what is left is parsed to the same tree and to its end |
| JsonMinify.UnclosedInputs | cJSON.c:757-758 | a quote alone and a comment that only begins are not closed |
| JsonCompact.ValueBecomes | cJSON.c:435-762 | within any text the print of a tree minifies to its unformatted print |
| JsonCompact.MinifyUnformats | cJSON.c:747-762 | minifying a formatted print gives exactly the unformatted print |
| JsonBuffer.Pow2gt | cJSON.c:117 | the smear gives the least power of two that is at least its argument |
| JsonBuffer.PrintBuffer.Ensure | cJSON.c:121-136 | room for what is needed, and nothing written so far lost when the buffer is replaced |
| JsonBuffer.PrintBuffer.Update | cJSON.c:138-144 | the offset moves to the terminator of what was printed |
| JsonPrint.PrintIsText | cJSON.c:373-404 | a print holds no NUL, so strlen finds its end |
| JsonFormat.FormatIsPrint | cJSON.c:435-659 | the formatted print of every tree is the unformatted one with white space by rules for single characters: line feeds and as many tabulators as brackets are open behind braces and the commas of objects, a space behind other commas, a tabulator behind colons |
| JsonPrint.NumberFits | cJSON.c:157-161 | 21 bytes are enough for an int |
| JsonPrint.QuotedText | cJSON.c:253-309 | the length counted beforehand is that of the escaped text, whichever of the two ways it is written |
| JsonPrint.ValueInto | cJSON.c:373-404 | the text of the tree, terminated, behind what was printed before; every write inside what ensure gave |
| JsonPrint.ArrayInto | cJSON.c:435-469 | the same for an array |
| JsonPrint.ObjectInto | cJSON.c:551-608 | the same for an object |
| JsonPrint.PrintBuffered | cJSON.c:347-354 | for every tree and positive size: the terminated text that the other printer gives, at the position returned |
| JsonPlain.ItemsFit | cJSON.c:437-482 | the size an array asks for is enough |
| JsonPlain.MembersFit | cJSON.c:554-625 | the size an object asks for is enough |
| JsonPlain.ArrayPlain | cJSON.c:435-511 | the printed items joined in an allocation of the computed size |
| JsonPlain.ObjectPlain | cJSON.c:551-658 | names and values joined likewise |
| JsonPlain.PrintPlain | cJSON.c:344-345 | the terminated text of the tree |
| Queue.Llq.AddToHead | framework/rpc/queue.c:48-69 | the message is first, the others behind it |
| Queue.Llq.AddToTail | framework/rpc/queue.c:71-94 | the message is last |
| Queue.Llq.Dequeue | framework/rpc/queue.c:152-171 | the first message comes out; head and tail are null together when none is left |
| Queue.Llq.Add | framework/rpc/queue.c:220-227 | with priority the message is first, and otherwise last, the others in their order |
| QueueRuns.StepInv | framework/rpc/queue.c:129-236 | every step of every thread keeps the invariant |
| QueueRuns.ReachableInv | framework/rpc/queue.c:129-236 | in every run nodes = count + receivers past the count wait + adds not yet posted, and nothing linked is lost or taken twice |
| QueueRuns.HeadIsThere | framework/rpc/queue.c:145-155 | a receiver past the count wait finds a head at its check and when it dequeues |
| QueueRuns.MutualExclusion | framework/rpc/queue.c:150-230 | at most one thread is in the list |
| QueueRuns.NothingLost | framework/rpc/queue.c:129-236 | with no call under way: what was linked is what was taken and what is listed, and the count is the length |
| QueueRuns.TailOrder | framework/rpc/queue.c:71-94 | entries added to the tail come out in the order they were linked, whatever is added to the head meanwhile |
| QueueRuns.TakenInOrder | framework/rpc/queue.c:129-236 | from any state, in any run: what is listed is taken in the order of the list, and what is not yet taken still stands together in that order |
| QueueRuns.PriorityFirst | framework/rpc/queue.c:220-227 | an entry with priority becomes the head, so in any run it is taken before everything listed when it was linked |
| QueueRuns.OthersLast | framework/rpc/queue.c:220-227 | one without becomes the last, and is taken after all of that |
| QueueRuns.AddOne | framework/rpc/queue.c:213-236 | a call of llq_add that nothing interrupts: the entry in its place and the count one more |
| QueueRuns.AllReceived | framework/rpc/queue.c:129-181 | with no call under way one thread can receive everything listed, in order |
| QueueRuns.AccessComesBack | framework/rpc/queue.c:150-230 | when access is taken, the thread that has it can go on |
| RpcRuns.StepInv | framework/rpc/rpc.c:375-523 | every step of every thread keeps the invariant |
| RpcRuns.OneRequestAtATime | framework/rpc/rpc.c:456-523 | at most one thread is between the wait on rpcSem and the post |
| RpcRuns.ResponsesConserved | framework/rpc/rpc.c:375-514 | in every reachable state: completed waits + srspSem + matches not yet posted = matched responses = responses (the frames with cmd0 / 32 == 3) queued or about to be, and these alone go to the head |
| RpcRuns.FramesConserved | framework/rpc/rpc.c:375-413 | in every reachable state each frame received is, as often as it came, queued, discarded or in hand; those with cmd0 / 32 != 3 go to the tail and are never discarded, so with all frames dealt with all of them are queued |
| RpcRuns.QueuedInTurn | framework/rpc/rpc.c:405-413 | a single receiving thread queues these in the order in which they came |
| RpcRuns.LockComesBack | framework/rpc/rpc.c:456-523 | when rpcSem is taken, the thread that has it can go on |
| RpcRuns.RequestCompletes | framework/rpc/rpc.c:375-523 | from any state with rpcSem free, any request and any response of its subsystem: a run that sends the one, queues the other first and completes the request |
| RpcRuns.MatchIsExpected | framework/rpc/rpc.c:375-404 | a response is matched only for the subsystem of the request under way, or for 0 before the first request |
| RpcRuns.OwnResponse | framework/rpc/rpc.c:493-516 | a completed request that opened without debt had a response matched since |
| RpcRuns.StaleResponse | framework/rpc/rpc.c:493-516 | from any state, one that opens with debt can complete with none |
| RpcRuns.DebtHappens | framework/rpc/rpc.c:504-519 | and such a debt does come about, for any request, late response and next request |
| ByteBuffer.WrittenIsRead | bytebuffer.h:126-184 | n bytes hold a number modulo 256^n |
| ByteBuffer.WriteMac | bytebuffer.h:166-177 | the six bytes picked from memory are the six low ones, most significant first, and the bytes behind stay |
| ByteBuffer.MacOnBigEndianHost | bytebuffer.h:153-165 | on a big-endian host they are those of the number without its two lowest bytes, which are the right ones if and only if d / 2^16 == d % 2^48 |
| ByteBuffer.MacOneOnBigEndianHost | bytebuffer.h:153-165 | the number 1 is not stored as 1 there |
| Framing.FramedIsFrame | protocol/protocol_encode_response.c:23-27 | patched length, checksum and flags make a valid frame of the message id |
| Framing.Finish | protocol/protocol_encode_response.c:23-29 | the three patches on the buffer do that |
| Framing.ScannerAccepts | protocol/protocol.c:81-140 | alone in a FIFO it is accepted whole, with its own length and id |
| Gateway.ActiveDeviceCount | gateway.c:358-370 | the devices neither deleted nor off the network, modulo 2^16 |
| Gateway.ActiveBits | gateway.c:364 | a device is active if and only if bits 0 and 10 of its status are clear |
| Gateway.ActiveAt | gateway.c:358-370 | the active devices are exactly those of the list, each as often as it stands there and in its order |
| Gateway.EndpointCount | gateway.c:119-127 | the endpoints, modulo 2^8 |
| Gateway.GetDevice | gateway.c:255-266 | the first device of an address, or none has it |
| Gateway.GetEndpoint | gateway.c:206-217 | the first endpoint of a number, or none has it |
| Login.EncodeLogin | protocol/protocol_encode_login.c:31-89 | the buffer holds the framed fields of the gateway and its active devices |
| LoginDecoder.LoginDecodes | protocol/protocol_encode_login.c:31-89 | a decoder recovers the gateway, every active device with its endpoints, and the zone type or state of those that have one |
| LoginDecoder.LoginLists | protocol/protocol_encode_login.c:49-83 | the devices a decoder recovers are those whose status has bits 0 and 10 clear, one by one in the order of the list |
| LoginDecoder.LoginDecodesExactlyWhenItFits | protocol/protocol_encode_login.c:31-89 | exactly when endpoint counts, device count and length fit their fields |
| LoginDecoder.LoginIsInjective | protocol/protocol_encode_login.c:31-89 | gateways that encode alike look alike |
| Responses.EncodeGeneralResponse | protocol/protocol_encode_response.c:12-30 | the buffer holds the framed fields |
| Responses.EncodeOnOffResponse | protocol/protocol_encode_response.c:32-51 | likewise |
| Responses.EncodeReadOnOffResponse | protocol/protocol_encode_response.c:53-71 | likewise |
| Responses.EncodeLevelResponse | protocol/protocol_encode_response.c:73-92 | likewise |
| Responses.EncodeWarningResponse | protocol/protocol_encode_response.c:94-113 | likewise |
| Responses.EncodeReportStatus | protocol/protocol_encode_response.c:115-130 | likewise |
| Responses.EncodeDeviceAttr | protocol/protocol_encode_deviceattr.c:8-47 | likewise, with the short address only of a known device and the versions only of a known endpoint |
| Responses.EncodeDelDeviceFeedback | protocol/protocol_encode_del_device_feedback.c:7-24 | likewise |
| Responses.ParseOnOff | protocol/protocol_parse_onoff.c:19-26 | serial number, address, endpoint and on/off from their places |
| Responses.ParseDelDevice | protocol/protocol_parse_del_device.c:16-21 | serial number and address |
| Responses.ParseGetDeviceAttr | protocol/protocol_parse_get_device_attr.c:16-22 | serial number, address and endpoint |
| Responses.AnswersAreParsed | protocol/protocol_parse_onoff.c:19-26 | at those places stand the fields of the on/off, read and delete encodings |
| Responses.AttrIsParsed | protocol/protocol_parse_get_device_attr.c:16-22 | and of the attribute encoding |
| Responses.MessagesAreRead | protocol/protocol_encode_response.c:12-130 | every field of each of these messages stands at its place, with names behind their lengths |
| Responses.MessagesAreAccepted | protocol/protocol_encode_response.c:12-130 | every one of these messages, alone in a FIFO, is accepted whole with its own id, which is dispatched |

## Left out

- Allocation never fails, and freed memory is not tracked.
- Descriptors, sockets, epoll, clocks and logging: times and chunks are parameters, closing and deregistering a
  descriptor are not modelled, and dispatching a frame is appending it to a sequence. A descriptor that is open is not
  opened again, which is the kernel's promise.
- Registry operations are atomic; the reconnect thread, which inserts without a lock, is not modelled.
- Connections.Registry.Insert: requires a descriptor that no live connection has, as the callers arrange; the source
  stops with an assertion otherwise.
- `container_of`: from a node or link to its connection by choosing the connection that has it, which is unique.
- The pointer to a child slot in `_connrbtree_insert` is a parent and a side; `rb_replace_node`, `connlist_check` and
  `connlist_getserverfd` are not modelled.
- The tree and the FIFO keep their own ghost description (the tree value, the order of the ring) beside the fields of
  the source.
- cJSON items are values: children are sequences in the order of their links, so `next`, `prev` and `child` pointers,
  references, item editing and `cJSON_Duplicate` are not modelled, nor are item types beyond the seven.
- JsonNumbers.NumberAt: values are exact reals and exponents integers, where the source computes with doubles and an int.
- Numbers are reals, so rounding is not modelled, and the printers are proved for numbers in the range of an int;
  `%e` and `%f` printing is not modelled.
- Text read past its terminator, which malformed input can cause, is modelled as reading NULs, and the second pass of
  parse_string appends to a sequence; JsonStrings.DecodedFits says when it fits the space counted.
- JsonPrint.PrintBuffered: sizes below 2^30, so that the size computed stays within an int.
- Queue nodes own their bytes; the maximal length that llq_timedreceive is given is ignored there and here.
- A wait that a signal interrupts is a wait that times out. Frames reach rpcProcess assembled and checked; reading them
  byte by byte, the frame check sum and writing them are not modelled.
- Words are written most significant byte first by arithmetic; the endianness test, the swap macros and hosts that are
  themselves big-endian are not modelled, but for what WriteMac stores there.
- Names, manufacturer and model texts and date codes are at most 255, 32 and 16 bytes, as their arrays hold; buffers
  passed to encoders have room for the message.
- What event_recvmsg sends for the heartbeat and login commands, and what it does with each message after parsing it.
- The messages and parsers beside those above repeat the same shapes; the database, timers, configuration and device
  discovery are calls into other libraries.
