# Models and proofs of the C exercises and network projects

A Dafny 4.11 model of the parts of the repository that hold real state: the storage allocator, the buffered
streams, Shell sort and the declaration parser of the exercises, and the proxies, the tic-tac-toe game and the
echo server of the network projects. `dafny verify dfyconfig.toml` checks everything.

Each file models one component. A file defines the component's state and its operations as functions on values,
proves what the operations keep, invert or refine, and then gives the operations in the source's own form
(classes with fields, arrays, loops, recursion through pointers), proved to do what the functions say. Statements
about runs range over every sequence of calls, events or interleaved steps. Where the code does not meet a
property for all inputs, a theorem gives the condition under which it does, both ways.

| file | component |
|---|---|
| ShellSort.dfy | gap passes of Shell sort and the order they keep |
| Allocator.dfy | `my_malloc`, `my_free`, `my_morecore` over one circular, address-ordered free list |
| Stdio.dfy | buffered streams against unbuffered files |
| Declarations.dfy | C declarations read into English, against declarators and their printer |
| Proxy.dfy | reference counts of the proxy's connections over batches of events |
| TicTacToe.dfy | the game server composed with its two browsers |
| EchoServer.dfy | the echo server's counters over all interleavings of its threads |
| Frames.dfy, Messages.dfy | WebSocket frames (RFC 6455) and the JSON messages inside them |
| HashTable.dfy | the chained hash table as a map |
| EchoWire.dfy | packing, byte order, and whole buffers over a stream in pieces |
| LineSort.dfy, WordCount.dfy, Bubble.dfy | comparators, the sorts by exchange, the tree of words |
| HttpHeaders.dfy | requests forwarded by the HTTP proxy: headers rewritten, bodies kept (RFC 7230) |
| Numerals.dfy | integers and text |
| Bytes.dfy, Texts.dfy, Options.dfy | bytes, exclusive or, network byte order; characters and C strings; optional values |

## Where the code and its promises differ

Each entry names the theorem that says exactly when; behind a semicolon follows a lemma or method with an input
that a run reaches.

- `my_malloc` accepts requests up to MAXALLOC bytes (16-1-26/8-7.c:97), but `my_free`, through which new memory
  is listed, ignores blocks above MAXALLOC/16 units (line 41). In the last 16 bytes of the range growing never
  helps and every region is lost: OversizeNeverGrows; OversizeReached.
- The duplicate scan of `my_free` finds only heads of free blocks. A second free of a block that has been joined
  to its lower neighbour is not noticed: FreeOkExactly, FreeTwiceExactly; FreeTwiceReached.
- `my_fflush` on a stream without a buffer claims a full one, into which the next put writes through NULL:
  WriteSession with Orderly, OrderlyExactly; FlushFirst. A relative seek on a read stream moves from the
  descriptor's position: ReadSeekExactly, ReadSession; SeekStrays. A put byte 0xFF looks like an error: PutcAmbiguous.
- The proxy closes a client's socket without releasing its record (proxy.c:176, 203), and a record that epoll
  refuses is kept. When that happens: HandleLeavesExactly. Those connections are never released, and all others
  can be: LeakedForever, ReleasableExactly; LeakReached.
- `createFrame` writes `&&` for `&` in its third branch, from the wrong index: CreatedParsesExactly; LongFrame. What the
  game server itself sends (server.c:38, 188) is under 1000 bytes and arrives: CreatedMessageArrives.
- A quote inside a code or text cuts a message short: ParsesBackExactly; QuoteCuts. The game server relays only what it
  has parsed, which has none: RelayedArrives.
- `itob` negates the least int, which wraps: ItobExactly. `htoi` wraps above the greatest int: HexExactly; HexWraps.
- One address more than MAX_SOCKETS is stored behind the echo server's table: RoomExactly; TableOverflows.
- A session that leaves closes its descriptor and then clears its slot, both outside the lock (EchoServer.c:130-131,
  167-168). In between the slot holds a closed descriptor, and by then the slot may be its successor's:
  OpenExactly, FdExactly; OldSessionClears.
- A login closes the descriptor of the session before it from the same address. If that thread is not inside recv,
  its next recv fails and line 174 ends the server: ClosedExactly, FailsForGood; SecondLoginEnds.
- A move that the game server cannot pass on (server.c:422) stays on the mover's page alone, and the match is
  stuck: DroppedHalts, HaltedForever.
- `trim` removes the message's own trailing spaces with the padding, and for an empty message, or one of spaces
  alone, leaves the array at its front: TrimExactly, ScanStaysInside; EmptyMessageLeaves.
- `forward_http_request` copies the header lines without a look at the room left (epollproxyserver.c:155). It stays
  inside if and only if the text fits: ForwardHttpRequest, with ForwardBound; HeaderLeaves.
- It does not remove the fields that a Connection line names, which section 6.1 of RFC 7230 asks for:
  OptionsExactly, SentUnnamedExactly; NamedFieldSent.

## Assumptions

- Allocator: sbrk gives fresh regions, disjoint, aligned, above the base and within 2^32 units of it, and after
  finitely many answers refuses; the third overflow check (line 100) cannot fire when the second has passed.
- Stdio: a system call succeeds, reading any nonempty part of what it could, or fails; after a failure only the
  buffer bounds are promised. The slots of `_iob` are distinct.
- Declarations: every `[` is closed; tokens and lines fit their buffers.
- Proxy, TicTacToe, EchoServer: descriptors are not reused; accept delivers anything. Proxy: epoll, connect, recv
  and send answer anything; a batch holds each record once and no error on the listener.
- TicTacToe.RunOk: every send succeeds and nobody disconnects. The server's methods take sends that fail.
- EchoServer: recv fails on a closed descriptor only; other network errors would end the server too (line 174).
- Frames and Messages: the buffer holds the whole frame; a created message fits 1000 characters; C strings hold
  no NUL. Shifts by 32 bits and more, which C leaves undefined, yield arbitrary truth values.
- HashTable, WordCount: memory is always found. HttpHeaders: the received text is terminated in
  its buffer, the parsed request holds no line end, and the server takes what is sent.
- Numerals, EchoServer: an int that overflows wraps in `itob` and `htoi`; the echo counters are unbounded.

## Model

| member | source | states |
|---|---|---|
| ShellSort.SortingKeepsDomination | 22-12-25/shellsort.c:16-24 | Knuth's lemma under the passes: if every x[m] is at most y[m+q], sorting both sequences keeps that |
| ShellSort.ColumnsDominate | 22-12-25/shellsort.c:16-24 | in a sequence sorted for gap h every column of gap k is, shifted by the right number of rows, pointwise below the column h places on |
| ShellSort.GapPassKeepsOrder | 22-12-25/shellsort.c:16-24 | sorting the columns of one gap keeps a sequence sorted for any other gap: a later pass does not undo an earlier one |
| ShellSort.ColumnSwap | 22-12-25/shellsort.c:10-14 | an exchange at distance gap permutes one column and leaves every other column alone |
| ShellSort.CountSorted | 22-12-25/shellsort.c:16-24 | in a sorted sequence the number of elements up to v is the rank of v |
| ShellSort.KeepsOrderAt | 22-12-25/shellsort.c:16-24 | the same order-keeping, position by position |
| ShellSort.PassKeepsAll | 22-12-25/shellsort.c:18-23 | after a pass the array is sorted for its gap and still for every earlier one |
| ShellSort.GapOneSorted | 22-12-25/shellsort.c:18-23 | sorted for gap 1 is sorted |
| ShellSort.Swap | 22-12-25/shellsort.c:10-14 | exchanges two elements and nothing else |
| ShellSort.SiftOnce | 22-12-25/shellsort.c:21-22 | one round of the innermost loop keeps the sifting invariant |
| ShellSort.SiftDown | 22-12-25/shellsort.c:20-22 | one element sinks to its place in its column; the column prefix is sorted and only that column permuted |
| ShellSort.GapPass | 22-12-25/shellsort.c:19-23 | one pass sorts every column of its gap and permutes each column within itself |
| ShellSort.Shellsort | 22-12-25/shellsort.c:16-24 | the array ends sorted and a permutation of the input; all three loops terminate |
| Allocator.InsertOk | 16-1-26/8-7.c:53-73 | joining a freed block into the ring keeps it ascending and fully joined: no free block ends where another begins |
| Allocator.InsertCovers | 16-1-26/8-7.c:57-72 | the free units after a free are those before and the block's, through joins on both sides |
| Allocator.PlaceFits | 16-1-26/8-7.c:53-55 | the place the scan finds is the gap that the taken block lies in |
| Allocator.FreeOk | 16-1-26/8-7.c:53-73 | freeing a taken block keeps the heap well formed: one joined ring which with the taken blocks tiles the arena exactly |
| Allocator.TakeOk | 16-1-26/8-7.c:116-128 | cutting a tail off a free block, or taking it whole, keeps the heap well formed; the new block was free |
| Allocator.CutOk | 16-1-26/8-7.c:118-126 | the split leaves an ascending, fully joined ring |
| Allocator.GrowOk | 16-1-26/8-7.c:76-89 | a region from sbrk is listed, or lost when it is above the limit of `my_free`; the heap stays well formed |
| Allocator.GrowFits | 16-1-26/8-7.c:84-88 | after a growth some free block is as big as the region, so the next lap finds it |
| Allocator.FirstFitComplete | 16-1-26/8-7.c:114-134 | the lap around the ring finds a block exactly when one is big enough |
| Allocator.PayloadTight | 16-1-26/8-7.c:97-107 | a request gets its bytes of payload and less than a unit more; where the two limits of lines 41 and 97 differ |
| Allocator.AllocateOk | 16-1-26/8-7.c:107-134 | every allocation keeps the heap well formed, gives a new block of the requested size, touches nothing taken |
| Allocator.GrowsAtMostOnce | 16-1-26/8-7.c:107-134 | up to MAXALLOC-16 bytes: at most one growth, NULL exactly when nothing fits and sbrk refuses, and then the heap is unchanged |
| Allocator.OversizeNeverGrows | 16-1-26/8-7.c:91-135 | above that limit growth never helps: success exactly when a block fits already, else all regions asked for are lost |
| Allocator.MallocExactly | 16-1-26/8-7.c:91-135 | exactly when `my_malloc` returns NULL, and that a block's payload is big enough and shares no unit with free or taken ones |
| Allocator.RingCanonical | 16-1-26/8-7.c:53-73 | the free list is determined by its free units: a fully joined ring has one form |
| Allocator.FreeUndoesTake | 16-1-26/8-7.c:28-135 | freeing the block just allocated restores the free list, whatever was split and joined |
| Allocator.FreeOkExactly | 16-1-26/8-7.c:28-73 | for an address that is not the head of a listed block, `my_free` leaves a well-formed heap if and only if it names a taken block |
| Allocator.ListedAfterFree | 16-1-26/8-7.c:44-72 | a block just freed is the head of a listed one exactly when it was not joined to its lower neighbour |
| Allocator.FreeTwiceExactly | 16-1-26/8-7.c:28-73 | freeing a block a second time leaves a well-formed heap if and only if the first call did not join it to its lower neighbour, or the size left in its header is refused |
| Allocator.FirstMalloc | 16-1-26/8-7.c:76-135 | the free list and the block after the first malloc of 16 bytes |
| Allocator.FreeTwiceReached | 16-1-26/8-7.c:28-135 | a run of one malloc after which freeing its block twice leaves no well-formed heap |
| Allocator.OversizeReached | 16-1-26/8-7.c:76-135 | a request for MAXALLOC bytes on the empty heap: the region obtained for it is lost and nothing is returned |
| Allocator.StepOk | 16-1-26/8-7.c:28-135 | every legal call keeps the heap well formed and the other taken blocks taken |
| Allocator.RunOk | 16-1-26/8-7.c:28-135 | in every run every reachable heap is one ascending, fully joined ring through the base which with the taken blocks tiles the arena |
| Allocator.LiveUntilFreed | 16-1-26/8-7.c:28-135 | in every run a block handed out stays handed out until it is freed |
| Allocator.LinkOk | 16-1-26/8-7.c:57-72 | the pointer and size writes of `my_free` make memory hold the joined ring, and change no header of a block still taken |
| Allocator.FreeRepresented | 16-1-26/8-7.c:53-73 | after those writes memory, `freep` included, represents the freed heap |
| Allocator.CarveOk | 16-1-26/8-7.c:116-128 | the writes of a split represent the heap with the tail taken, and touch no unit of a taken block |
| Allocator.UnitNotListed | 16-1-26/8-7.c:28-135 | no unit of a taken block is a list header |
| Allocator.StillUntouched | 16-1-26/8-7.c:76-135 | taken units untouched by one step stay untouched by the rest of an allocation |
| Allocator.Arena.constructor | 16-1-26/8-7.c:25-26 | the initial arena is the empty heap with a null `freep` |
| Allocator.Arena.ClientWrite | 16-1-26/8-7.c:91-135 | a client writing inside its payload disturbs nothing that the allocator reads |
| Allocator.Arena.MyFree | 16-1-26/8-7.c:28-74 | refused pointers change nothing; else the heap is the freed one, valid if and only if the block was taken |
| Allocator.Arena.FreeUnlisted | 16-1-26/8-7.c:53-73 | the scan and both joins yield the freed heap and write only that block's header and listed ones |
| Allocator.FreedHeader | 16-1-26/8-7.c:57-72 | after the joins the freed header holds the size of the block joined to its upper neighbour |
| Allocator.Arena.FreeTwice | 16-1-26/8-7.c:28-74 | two calls of `my_free` on one block do what the theorem on freeing twice speaks of |
| Allocator.Arena.Link | 16-1-26/8-7.c:57-72 | the two joins write exactly the linked memory |
| Allocator.Arena.FindListed | 16-1-26/8-7.c:44-51 | the duplicate scan terminates and answers whether the address heads a listed block |
| Allocator.Arena.FindPlace | 16-1-26/8-7.c:53-55 | the place scan terminates at the block after which the freed one belongs, the wrap included |
| Allocator.PayloadAddress | 16-1-26/8-7.c:28-135 | a payload begins one header behind its block, and `my_free` finds the header of what `my_malloc` handed out |
| Allocator.Arena.MyMalloc | 16-1-26/8-7.c:91-135 | the heap and the address are those of the specification, and no unit of a taken block is written |
| Allocator.Arena.FindFit | 16-1-26/8-7.c:114-134 | the lap with growth does what the specification of allocation does |
| Allocator.Arena.Carve | 16-1-26/8-7.c:116-128 | the split writes represent the taken tail |
| Allocator.Arena.MyMorecore | 16-1-26/8-7.c:76-89 | a refusal changes nothing, else the grown heap is represented |
| Allocator.Arena.Acquire | 16-1-26/8-7.c:82-87 | the new region is mapped, has its size in its header, and counts as taken |
| Allocator.Arena.FreeRegion | 16-1-26/8-7.c:76-89 | the region is freed, or lost when it is over the limit |
| Stdio.WriteWrite | 14-1-26/8-4.c:106-153 | two consecutive writes are one write of both, gaps and overwriting included |
| Stdio.PutcAmbiguous | 14-1-26/8-4.c:22-25 | the buffered branch of `my_putc` returns EOF for a successful put exactly when the byte is 0xFF |
| Stdio.ReadSeekExactly | 14-1-26/8-4.c:265-265 | a relative seek on a read stream is right if and only if nothing is buffered ahead or both seeks are refused |
| Stdio.PutsAreOneWrite | 14-1-26/8-4.c:106-153 | puts one at a time are one write of the bytes that they store |
| Stdio.PutsWrite | 14-1-26/8-4.c:22-25 | putting some bytes writes those bytes |
| Stdio.ToByteIs | 14-1-26/8-4.c:22-25 | the byte stored for an int is the one congruent to it modulo 256, and read back as a char it is the char that was put |
| Stdio.SeekMoves | 14-1-26/8-4.c:252-273 | where a seek leads, counted from the start, the current position or the end; before the start and for any other origin it moves nothing |
| Stdio.OpenedIs | 14-1-26/8-4.c:58-104 | r and w start at the front, w with nothing; what is written after a comes behind what there was |
| Stdio.TakenAny | 14-1-26/8-4.c:170-171 | a read may return any number of bytes from one to all that fit |
| Stdio.Save | 14-1-26/8-4.c:58-223 | opened with w, written and closed, the file holds exactly the bytes put |
| Stdio.Load | 14-1-26/8-4.c:58-184 | opened with r, a file is read byte for byte, whatever the short reads, and then EOF |
| Stdio.GetsReadInOrder | 14-1-26/8-4.c:155-184 | n gets return the file's bytes in order, then EOF |
| Stdio.MyFile.Getc | 14-1-26/8-4.c:19-21 | returns the next byte of the logical file, whatever the short reads, and moves one on |
| Stdio.MyFile.Refill | 14-1-26/8-4.c:170-183 | with a buffer: reads and returns the next byte of the file, EOF at its end |
| Stdio.MyFile.FillBuf | 14-1-26/8-4.c:155-184 | refills and returns the next byte of the file, EOF at its end |
| Stdio.MyFile.Read | 14-1-26/8-4.c:170-171 | read(2): nothing at the end, else between one byte and n, the file's own, as many as the environment says |
| Stdio.MyFile.Putc | 14-1-26/8-4.c:22-25 | writes at the logical position the byte itself, if it is one, else the one that ToByteIs says; afterwards cnt and ptr add up to BUFSIZ. A stream that claims room without a buffer is the one state it cannot be called in: there the source writes through NULL |
| Stdio.MyFile.WriteBuffer | 14-1-26/8-4.c:134-140 | write(2) of the pending bytes |
| Stdio.MyFile.FlushBuf | 14-1-26/8-4.c:106-153 | writes what is pending, then buffers or writes the byte |
| Stdio.MyFile.Fflush | 14-1-26/8-4.c:225-250 | from every state a client can reach: the file becomes the logical file, and the stream claims room without a buffer exactly when it is buffered and has none; EOF on a read stream or after an error |
| Stdio.MyFile.Fseek | 14-1-26/8-4.c:252-273 | on a write stream, from every such state too, the logical file moves as an unbuffered seek would move it, and a seek that succeeds takes the claim back; on a read stream the raw descriptor moves |
| Stdio.MyFile.Fclose | 14-1-26/8-4.c:186-223 | from every such state: what was put is in the file, and the slot is free again |
| Stdio.MyFile.Fopen | 14-1-26/8-4.c:58-104 | on a free slot: the stream starts at the position and contents that the mode asks for, or fails |
| Stdio.OpenSlot | 14-1-26/8-4.c:58-104 | the search among the OPEN_MAX slots: the first free one is opened, NULL exactly when the mode is unknown, the file is missing or no slot is free, and no other slot is touched |
| Stdio.WriteSession | 14-1-26/8-4.c:106-273 | for any sequence of puts, flushes and seeks: it goes through if and only if no put comes while the stream claims room without a buffer; then the file after closing is what unbuffered operations make of it; otherwise it is that up to the first such put |
| Stdio.OrderlyExactly | 14-1-26/8-4.c:225-273 | for a client that has no buffer yet, whether a session goes through is decided by one call, the one before its first put: there is none, or it is a seek that succeeds |
| Stdio.HeldOrderly | 14-1-26/8-4.c:106-273 | once there is a buffer every session goes through |
| Stdio.FlushFirst | 14-1-26/8-4.c:225-250 | opening for writing and then flushing, by the methods themselves, leads to a stream on which the next put has no buffer |
| Stdio.ClientWrites | 14-1-26/8-4.c:106-273 | one operation of such a client does to the logical file what the unbuffered one does, and leaves the room that the condition speaks of |
| Stdio.ReadSession | 14-1-26/8-4.c:155-184 | for any sequence of gets and seeks and any short reads, the client sees the unbuffered bytes, up to the first relative seek that strays |
| Stdio.SeekStrays | 14-1-26/8-4.c:252-273 | of a file of two bytes one is read, and a seek by nothing from the current position moves on by one |
| Stdio.ClientReads | 14-1-26/8-4.c:155-273 | one operation of a reading client: it strays if and only if its seek goes elsewhere from the descriptor's position than from the stream's, which only a relative one does; else it acts as on the unbuffered file |
| Declarations.DclReads | 6-1-26/5-18.c:36-45 | for every declarator, however spaced: `dcl` appends exactly its English reading, sets the name, stops at the first token behind it, and leaves the rest |
| Declarations.DclExactly | 6-1-26/5-18.c:36-69 | `dcl` goes through without a complaint if and only if its tokens are those of a declarator, followed by something that is no suffix |
| Declarations.DclTaken | 6-1-26/5-18.c:36-69 | the declarator that was read, when there is no complaint |
| Declarations.SuffixesTaken | 6-1-26/5-18.c:59-68 | the suffixes that the loop reads belong to the declarator in front of them |
| Declarations.LineExactly | 6-1-26/5-18.c:110-124 | a line is accepted if and only if it is a token, a declarator and a newline |
| Declarations.DirectReads | 6-1-26/5-18.c:47-69 | the same for direct declarators, up to the loop over suffixes |
| Declarations.SuffixRead | 6-1-26/5-18.c:59-68 | reading up to the last suffix leaves that suffix as the next token |
| Declarations.StarsRead | 6-1-26/5-18.c:40-41 | the stars in front are counted exactly |
| Declarations.LexPrinted | 6-1-26/5-18.c:71-108 | a printed token is read back, with anything that does not prolong it behind it |
| Declarations.PrintSpells | 6-1-26/5-18.c:71-108 | a printed sequence of tokens is read as that sequence |
| Declarations.DeclaratorWellSpaced | 6-1-26/5-18.c:71-108 | a printed declarator never needs more blanks than it is given, none included |
| Declarations.PrintedDclReads | 6-1-26/5-18.c:36-69 | round trip: a declarator printed with any blanks is read as the type it declares |
| Declarations.LineReads | 6-1-26/5-18.c:110-124 | a whole line gives the name, the reading and the type, without complaint, and leaves the next line |
| Declarations.LinesRead | 6-1-26/5-18.c:110-124 | `char*f()` is read as a function returning a pointer, `char(*f)()` as a pointer to a function, in those words |
| Declarations.LexClosed | 6-1-26/5-18.c:71-108 | reading a token keeps every bracket closed |
| Declarations.Parser.Getch | 6-1-26/5-18.c:9-12 | takes the pushed-back character first |
| Declarations.Parser.Ungetch | 6-1-26/5-18.c:13-19 | pushes one character back; the depth never exceeds one |
| Declarations.Parser.GetTok | 6-1-26/5-18.c:71-108 | does what the token function says, with the pushback empty or full |
| Declarations.Parser.TokenFrom | 6-1-26/5-18.c:76-107 | the token that starts with a character already read |
| Declarations.Parser.SkipSpace | 6-1-26/5-18.c:76-77 | skips blanks and tabs |
| Declarations.Parser.AfterParen | 6-1-26/5-18.c:79-89 | `()` is one token, anything else is pushed back |
| Declarations.Parser.ReadBrackets | 6-1-26/5-18.c:91-97 | the token is the text up to the next closing bracket |
| Declarations.Parser.CopyToBracket | 6-1-26/5-18.c:93-95 | copies that text |
| Declarations.Parser.ReadName | 6-1-26/5-18.c:98-105 | the token is the longest identifier, and the character behind is pushed back |
| Declarations.Parser.LineProc | 6-1-26/5-18.c:112-123 | one round of the main loop |
| Declarations.Parser.DclProc | 6-1-26/5-18.c:36-45 | refines the specification of `dcl`; the mutual recursion terminates |
| Declarations.Parser.CountStars | 6-1-26/5-18.c:40-41 | counts the stars |
| Declarations.Parser.AppendPointers | 6-1-26/5-18.c:43-44 | appends the words once for each star |
| Declarations.Parser.DirDclProc | 6-1-26/5-18.c:47-69 | refines the specification of `dirdcl` |
| Declarations.Parser.ReadSuffixes | 6-1-26/5-18.c:59-68 | refines the loop over suffixes |
| Proxy.CleanupOk | HTTP Proxy Effecient/data.c:41-54 | one record less keeps every count right; the connection goes exactly with its last record |
| Proxy.SoleHolder | HTTP Proxy Effecient/proxy.c:136-147 | a connection that is not authorized has one record, its client's, and no upstream |
| Proxy.AcceptOk | HTTP Proxy Effecient/proxy.c:124-143 | accepting keeps the invariant, touching no other record |
| Proxy.AdmitAndCloseOk | HTTP Proxy Effecient/proxy.c:166-206 | a client admitted but then closed leaves the invariant intact |
| Proxy.AdmitAndCleanup | HTTP Proxy Effecient/proxy.c:182-195 | admitting and answering from the cache ends as dropping does |
| Proxy.JoinOk | HTTP Proxy Effecient/proxy.c:208-231 | connecting upstream makes two records for the connection, the count two, and touches no other record |
| Proxy.FirstRequestOk | HTTP Proxy Effecient/proxy.c:147-243 | every branch of the first request keeps the invariant and the other events' records |
| Proxy.RelayOnceOk | HTTP Proxy Effecient/proxy.c:244-288 | so does every branch of the relay |
| Proxy.HandleOk | HTTP Proxy Effecient/proxy.c:112-288 | so does every event |
| Proxy.RestOfBatch | HTTP Proxy Effecient/proxy.c:112-123 | the events still to come in a batch find their records unreleased and as they were |
| Proxy.ServeOk | HTTP Proxy Effecient/proxy.c:112-288 | a whole batch keeps the invariant |
| Proxy.RunOk | HTTP Proxy Effecient/proxy.c:97-291 | in every run each live connection's `refs` is the number of its records, and only authorized ones have an upstream |
| Proxy.FreedOnce | HTTP Proxy Effecient/proxy.c:97-291 | in every run a released connection is released once and never comes back |
| Proxy.FreedGrows | HTTP Proxy Effecient/proxy.c:97-291 | what was released stays released |
| Proxy.HandleLeavesExactly | HTTP Proxy Effecient/proxy.c:124-243 | an event makes a live connection stuck, one of its records being out of epoll's sight, if and only if it accepts a client that epoll refuses, or it is an authorized first request that does not parse, or finds no server (lines 176 and 203), or whose server epoll refuses |
| Proxy.LeakedForever | HTTP Proxy Effecient/proxy.c:97-291 | in every run a stuck connection is never released |
| Proxy.ReleasableExactly | HTTP Proxy Effecient/proxy.c:112-123 | a live connection can still be released if and only if it is not stuck: the hangups of its ends do it, otherwise no batch does |
| Proxy.LeakReached | HTTP Proxy Effecient/proxy.c:124-181 | a run of two batches that ends with a stuck connection |
| Proxy.StuckStays | HTTP Proxy Effecient/proxy.c:112-288 | no batch releases a stuck connection or brings its record back |
| Proxy.RelaysExactly | HTTP Proxy Effecient/proxy.c:244-288 | an event passes something on if and only if it is data on an authorized connection, no error; and then from the end it came from to the other one, which exists |
| Proxy.RelayReleasesExactly | HTTP Proxy Effecient/proxy.c:244-288 | the relay releases its record exactly at the end of the data and at errors other than EAGAIN, of recv or of send; otherwise only what it passed on has changed |
| Proxy.AcceptExactly | HTTP Proxy Effecient/proxy.c:124-143 | what accepting adds: one connection without a server and one record of it, watched if epoll takes it |
| Proxy.BrokenReleases | HTTP Proxy Effecient/proxy.c:115-123 | an error event releases its record and does nothing else |
| Proxy.FirstRequestExactly | HTTP Proxy Effecient/proxy.c:147-243 | what each outcome of the first request leaves: nothing; the client alone, out of epoll's sight; or two records with the server |
| Proxy.EventLoop.CreateConn | HTTP Proxy Effecient/data.c:30-39 | refines the creation of a connection |
| Proxy.EventLoop.CreateRecord | HTTP Proxy Effecient/data.c:18-28 | a new record raises the count |
| Proxy.EventLoop.AddToEpoll | HTTP Proxy Effecient/proxy.c:33-44 | the record is watched, if epoll takes it |
| Proxy.EventLoop.CleanupConnection | HTTP Proxy Effecient/data.c:41-54 | refines the release of a record |
| Proxy.EventLoop.HandleEvent | HTTP Proxy Effecient/proxy.c:115-288 | the loop body does what the transition function says |
| Proxy.EventLoop.AcceptClient | HTTP Proxy Effecient/proxy.c:124-143 | refines accepting |
| Proxy.EventLoop.ServeFirst | HTTP Proxy Effecient/proxy.c:147-243 | refines the first request |
| Proxy.EventLoop.Upstream | HTTP Proxy Effecient/proxy.c:200-243 | refines the part behind the connect |
| Proxy.EventLoop.DropBoth | HTTP Proxy Effecient/proxy.c:200-243 | both records go |
| Proxy.EventLoop.RelayData | HTTP Proxy Effecient/proxy.c:244-288 | refines the relay |
| Proxy.EventLoop.ServeBatch | HTTP Proxy Effecient/proxy.c:112-288 | refines a batch and keeps the invariant |
| TicTacToe.EvaluateExactly | TicTacToe/Server/server.c:64-97 | a reported winner has a line; no winner, no line |
| TicTacToe.WinnerMoved | TicTacToe/Server/server.c:64-97 | a move on a board without a line can only complete a line of the mover |
| TicTacToe.StartingKept | TicTacToe/Server/server.c:359-416 | before X has read INIT_BOARD nothing can happen but reading; the phase stays, and after X has read it, it is X's turn |
| TicTacToe.ToMoveKept | TicTacToe/Client/scripts.js:84-200 | on a player's turn only that player can click, and only a cell blank on the server, after which that move is on its way there; anything else is O reading old messages |
| TicTacToe.ToServerKept | TicTacToe/Server/server.c:417-492 | while a move travels to the server both browsers agree with the server up to that move; the server, reading it, ends the match rightly or passes the move to the other player |
| TicTacToe.ToOpponentKept | TicTacToe/Client/scripts.js:84-132 | while it travels on nothing can happen but that the other player reads; on reading it, it is that player's turn, both browsers showing the server's board |
| TicTacToe.MoveMade | TicTacToe/Server/server.c:417-492 | the server's step ends the match rightly or passes the move on |
| TicTacToe.MatchKept | TicTacToe/Server/server.c:417-492 | the server's board, count and log stay consistent: `moves` is the number of filled cells |
| TicTacToe.NextOnMove | TicTacToe/Server/server.c:417-492 | what the server's step changes: its match, the log, and the messages under way |
| TicTacToe.Ended | TicTacToe/Server/server.c:440-492 | when the match ends the winner is the player who just moved, or all nine cells are filled |
| TicTacToe.VerdictOf | TicTacToe/Server/server.c:440-492 | the verdict sent with the last move names the mover, who has a line, or is a draw after nine moves without one |
| TicTacToe.Forwarded | TicTacToe/Server/server.c:440-470 | a move that does not end the match is on its way to the other player, alone |
| TicTacToe.DeliverVerdicts | TicTacToe/Server/server.c:440-492 | the last message to each side is the verdict |
| TicTacToe.StepOk | TicTacToe/Server/server.c:359-492 | every step of the server and two browsers keeps the invariant or ends the match rightly |
| TicTacToe.RunOk | TicTacToe/Server/server.c:359-492 | so does every run |
| TicTacToe.MovesAlternate | TicTacToe/Server/server.c:417-492 | in every run X and O alternate from X, on distinct cells, at most nine times, and the board is the log |
| TicTacToe.NamedInRun | TicTacToe/Server/server.c:359-492 | in every run each message names the match and the player it should, and so does whoever clicks, once the lobby's messages name it |
| TicTacToe.NamedStep | TicTacToe/Server/server.c:359-492 | every step keeps that |
| TicTacToe.PagesCleared | TicTacToe/Client/scripts.js:68-132 | when a match is over, a page that reads on to the verdict shows nine blank cells, none of them enabled |
| TicTacToe.PhasesGoOn | TicTacToe/Client/scripts.js:50-200 | in each phase the one whose turn it is can go on: a player can click every blank cell and no other, and whoever a message is for can read it |
| TicTacToe.NeverStuck | TicTacToe/Server/server.c:359-492 | so no match in progress is stuck while every send succeeds |
| TicTacToe.RunsEnd | TicTacToe/Server/server.c:359-492 | every run ends: from the lobby a match takes at most 26 steps and the reading of what lay in the inboxes |
| TicTacToe.DroppedHalts | TicTacToe/Server/server.c:420-426 | a move that cannot be passed on: the mover's page shows it, the server has not got it, and nobody can move |
| TicTacToe.HaltedForever | TicTacToe/Client/scripts.js:84-200 | and so it stays, whatever is read |
| TicTacToe.JoinStarts | TicTacToe/Server/server.c:372-416 | the match, the messages and the phase that joining leads to, whether or not X has read its own confirmation; X's page then knows the match, or is about to be told |
| TicTacToe.EvaluateBoard | TicTacToe/Server/server.c:64-97 | the loops over the array compute the evaluation |
| TicTacToe.Server.constructor | TicTacToe/Server/server.c:217-240 | no match at the start |
| TicTacToe.Server.Create | TicTacToe/Server/server.c:359-371 | CREATE_MATCH, also from a client that is in a match: the new match, the next id, the reply, if it can be sent |
| TicTacToe.Server.Join | TicTacToe/Server/server.c:372-416 | JOIN_MATCH, also from a client that is in a match, this one included: succeeds exactly when the match exists and waits for a player; else only a refusal is sent; the first send that fails ends the replies |
| TicTacToe.Server.Reply | TicTacToe/Server/server.c:380-405 | the three messages that start a match, up to the first that cannot be sent |
| TicTacToe.Server.MoveReceived | TicTacToe/Server/server.c:417-492 | MOVE, wherever a send fails: the match, the messages and the end are those of the specification; a move that cannot be passed on changes nothing, and without both verdicts the match stays in the table |
| TicTacToe.Server.PlayMove | TicTacToe/Server/server.c:428-492 | the server's update behind the forwarded move |
| TicTacToe.Server.SendResponse | TicTacToe/Server/server.c:32-47 | one message goes out or fails |
| TicTacToe.Server.EndMatch | TicTacToe/Server/server.c:440-492 | the verdict goes to X and then to O, and the match is gone if both can be sent |
| TicTacToe.Page.constructor | TicTacToe/Client/scripts.js:1-48 | a page starts with empty cells and no player |
| TicTacToe.Page.EnableAllRemaining | TicTacToe/Client/scripts.js:50-58 | every empty cell becomes enabled and the other cells stay as they were |
| TicTacToe.Page.DisableAll | TicTacToe/Client/scripts.js:60-66 | no cell is enabled |
| TicTacToe.Page.ClearAndDisableAll | TicTacToe/Client/scripts.js:68-75 | the cells are empty and none is enabled |
| TicTacToe.Page.OnMessage | TicTacToe/Client/scripts.js:84-132 | refines the reaction to each message |
| TicTacToe.Page.HandleMove | TicTacToe/Client/scripts.js:184-200 | a click fills the cell, disables all and sends the move |
| EchoServer.RegisterOk | Mini Project 27-1-26/EchoServer.c:61-98 | registering keeps the totals; a known address keeps its slot and count |
| EchoServer.CountOk | Mini Project 27-1-26/EchoServer.c:135-138 | counting a message keeps the total the sum of the slots, and each slot the number of its address's messages |
| EchoServer.HangupOk | Mini Project 27-1-26/EchoServer.c:124-131 | leaving keeps the counts |
| EchoServer.AnswerOk | Mini Project 27-1-26/EchoServer.c:142-145 | the reply's user count is part of its total, and both exceed those of the reply before |
| EchoServer.StepCounts | Mini Project 27-1-26/EchoServer.c:61-176 | every step keeps the table's invariant, and totals never fall |
| EchoServer.OwnOk | Mini Project 27-1-26/EchoServer.c:109-176 | the thread that moves keeps its own invariant |
| EchoServer.StepOk | Mini Project 27-1-26/EchoServer.c:61-176 | every step of any thread keeps the invariant of all |
| EchoServer.RunOk | Mini Project 27-1-26/EchoServer.c:61-176 | over all interleavings: total_echo is the sum of the echo_counts and used slots have distinct addresses |
| EchoServer.RepliesInOrder | Mini Project 27-1-26/EchoServer.c:135-145 | in every run user_count <= total_count in each reply, and one thread's totals strictly increase |
| EchoServer.CountedInRun | Mini Project 27-1-26/EchoServer.c:135-138 | in every run the total is the number of messages counted so far, and an address's count the number of those from it |
| EchoServer.ReplyExactly | Mini Project 27-1-26/EchoServer.c:142-145 | each reply holds exactly those two numbers at its moment, and no other step adds one |
| EchoServer.RoomExactly | Mini Project 27-1-26/EchoServer.c:83-94 | registering writes inside the table if and only if the addresses, with the new one, are at most MAX_SOCKETS |
| EchoServer.TableOverflows | Mini Project 27-1-26/EchoServer.c:83-94 | a run in which 100 addresses are registered and one more is stored behind the table |
| EchoServer.TableFits | Mini Project 27-1-26/EchoServer.c:61-98 | with at most MAX_SOCKETS addresses in all every run stays inside the table |
| EchoServer.DistinctCount | Mini Project 27-1-26/EchoServer.c:61-98 | the used slots are as many as the addresses |
| EchoServer.FdsKept | Mini Project 27-1-26/EchoServer.c:61-176 | every step, closing and clearing being two, keeps it that a slot's descriptor, unless cleared, is that of a session of the slot that has not finished |
| EchoServer.FdsLive | Mini Project 27-1-26/EchoServer.c:61-176 | so in every run |
| EchoServer.OpenExactly | Mini Project 27-1-26/EchoServer.c:73-81 | in every run a slot's descriptor, unless cleared, is open if and only if no session of the slot stands between closing its descriptor (lines 130 and 167) and clearing the slot (131 and 168) while the slot still holds it |
| EchoServer.HeldKept | Mini Project 27-1-26/EchoServer.c:61-176 | every step keeps it that a session whose slot holds its descriptor finds it closed exactly when it has closed it itself |
| EchoServer.ClosedBy | Mini Project 27-1-26/EchoServer.c:73-81 | what a step closes: the session's own descriptor, or the one in the slot of a login |
| EchoServer.ClosedExactly | Mini Project 27-1-26/EchoServer.c:73-81 | in every run a session that has not closed its descriptor finds it closed if and only if another login from its address came since its own, before any session of the slot cleared it; if so when it calls recv, line 174 ends the server |
| EchoServer.FailsForGood | Mini Project 27-1-26/EchoServer.c:118-175 | a thread about to call recv on a closed descriptor can do nothing else, whatever the others do |
| EchoServer.SecondLoginEnds | Mini Project 27-1-26/EchoServer.c:73-175 | a run of two logins from one address after which the first session's next recv ends the server |
| EchoServer.AcceptedWith | Mini Project 27-1-26/EchoServer.c:245-261 | each session's descriptor and address are those it was accepted with |
| EchoServer.RegisteredStays | Mini Project 27-1-26/EchoServer.c:100-176 | a session keeps its slot and its descriptor |
| EchoServer.FdExactly | Mini Project 27-1-26/EchoServer.c:73-98 | in every run a slot still holds the descriptor of the session that logged in there if and only if no other login to it, and no clearing by any session of it (lines 131 and 168), has come since |
| EchoServer.OldSessionClears | Mini Project 27-1-26/EchoServer.c:73-132 | a run of two logins from one address, the first session leaving: the second login finds and closes a descriptor that is closed already, and then the first clears the slot though the second is live and its descriptor open |
| EchoServer.Table.constructor | Mini Project 27-1-26/EchoServer.c:20-38 | an empty table |
| EchoServer.Table.AddOrUpdateUser | Mini Project 27-1-26/EchoServer.c:61-98 | the search finds the address's slot, and names the descriptor to be closed, or takes a new one, or a new address has no room left in the table |
| EchoServer.Table.CountEcho | Mini Project 27-1-26/EchoServer.c:135-138 | the first locked section |
| EchoServer.Table.ReadCounts | Mini Project 27-1-26/EchoServer.c:142-145 | the second one |
| EchoServer.Table.ClearSlot | Mini Project 27-1-26/EchoServer.c:131-131 | the slot's descriptor is cleared |
| Frames.ParseEncode | TicTacToe/Server/frame.c:17-79 | `parse_frame` inverts the encoder of sections 5.2 and 5.3 of RFC 6455, in all three length forms, masked or not, whatever follows |
| Frames.EncodeParse | TicTacToe/Server/frame.c:17-79 | conversely, any complete buffer is the encoding of what `parse_frame` reads from it |
| Frames.CreatedIsMinimal | TicTacToe/Server/frame.c:133-154 | up to 65535 bytes `createFrame` is the unmasked encoder of least length |
| Frames.CreatedParsesExactly | TicTacToe/Server/frame.c:133-154 | a created frame is read back if and only if the payload has at most 65535 bytes, whatever the undefined shifts of the third branch yield |
| Frames.LongFrame | TicTacToe/Server/frame.c:133-154 | a payload of 65536 bytes, which is not read back |
| Frames.MaskTwice | TicTacToe/Server/frame.c:70-76 | masking again with the same key unmasks (section 5.3) |
| Frames.PayloadRead | TicTacToe/Server/frame.c:60-76 | the payload is what stands behind the length or the key, and of a masked frame each bit is 1 exactly where the buffer's byte and the key's byte differ |
| Frames.LengthRead | TicTacToe/Server/frame.c:35-58 | the length in its three forms, written out |
| Frames.FlagsRead | TicTacToe/Server/frame.c:21-33 | flags, opcode and mask are the bits of the first two bytes |
| Frames.MaskedLetter | TicTacToe/Server/frame.c:17-79 | a frame as a browser sends it, masked, with the letter A in it |
| Frames.CreatedSpelled | TicTacToe/Server/frame.c:133-154 | the bytes that `createFrame` writes, branch by branch |
| Frames.CreateFrame | TicTacToe/Server/frame.c:133-154 | the buffer's first bytes are the created frame |
| Frames.CreateClientFrameBuffer | TicTacToe/Server/frame.c:108-131 | the same for a frame record, whose 64-bit shifts are defined |
| Frames.WriteHead | TicTacToe/Server/frame.c:134-149 | the first byte and the length, by the three branches of `pos` writes |
| Frames.WriteTruths | TicTacToe/Server/frame.c:145-148 | the third branch writes eight truth values from index 1 on |
| Frames.ParseFrame | TicTacToe/Server/frame.c:17-79 | the new record holds what the buffer encodes |
| Frames.ReadLength | TicTacToe/Server/frame.c:35-58 | the length and where the rest begins, in the three forms |
| Frames.Unmask | TicTacToe/Server/frame.c:70-76 | the loop unmasks the payload in place |
| Bytes.XorTwice | TicTacToe/Server/frame.c:74-74 | exclusive or with the same byte twice changes nothing |
| Bytes.XorBit | TicTacToe/Server/frame.c:74-74 | each bit of the exclusive or is 1 exactly where the two bytes differ |
| Bytes.BitsDecide | TicTacToe/Server/frame.c:74-74 | two bytes with the same bits are the same, so the bits say which byte it is |
| Messages.ParsesBackExactly | TicTacToe/Server/message.c:11-57 | a created message is read back, whatever follows it, if and only if neither the code nor the text holds a quote |
| Messages.QuoteCuts | TicTacToe/Server/message.c:11-57 | a message whose text holds quotes, which is not read back |
| Messages.FindIs | TicTacToe/Server/message.c:14-14 | `strstr` answers the first place where the word stands, before which there is neither it nor a NUL |
| Messages.RelayedArrives | TicTacToe/Server/message.c:11-57 | what was parsed from any text can be sent on: the same code and text in a new message are read back |
| Messages.MessageThroughFrame | TicTacToe/Server/message.c:11-57 | sent in a frame of any form, masked or not, the message arrives whole, its match id as the decimal text of the number |
| Messages.CreatedMessageArrives | TicTacToe/Server/message.c:52-57 | so does every message that fits the 1000-character buffer, framed by `createFrame` |
| Messages.LocateJson | TicTacToe/Server/message.c:14-42 | where the four searches end in a created message, for all fields without quotes |
| Messages.ParsedUnquoted | TicTacToe/Server/message.c:29-41 | a parsed code or text never holds a quote |
| Messages.BufferHolds | TicTacToe/Server/message.c:20-41 | the C strings at the three pointers of the changed buffer are the parsed texts |
| Messages.StrStr | TicTacToe/Server/message.c:14-14 | `strstr`, inside the buffer |
| Messages.ToQuote | TicTacToe/Server/message.c:17-19 | the loop to the closing quote |
| Messages.TakeField | TicTacToe/Server/message.c:26-33 | a field is found and terminated in place |
| Messages.ParseJsonString | TicTacToe/Server/message.c:11-43 | the parts are found where the search says, and exactly three quotes are overwritten |
| HashTable.HashOf | HTTP Proxy Effecient/hashmap.c:17-25 | the 64-bit accumulator's wrap does not show: the bucket is the polynomial's value modulo 1024 |
| HashTable.HashLaw | HTTP Proxy Effecient/hashmap.c:17-25 | the empty key's bucket, and what one more character, which is a signed char, makes of a bucket |
| HashTable.PutInLookup | HTTP Proxy Effecient/hashmap.c:47-85 | after a put the key has the new value and every other key its old one |
| HashTable.RemoveFromLookup | HTTP Proxy Effecient/hashmap.c:156-189 | after a removal the key is gone and every other key as it was |
| HashTable.PutRefines | HTTP Proxy Effecient/hashmap.c:47-85 | put refines the map update and keeps each key once, in its bucket |
| HashTable.RemoveRefines | HTTP Proxy Effecient/hashmap.c:156-189 | removeKey refines the map removal, likewise |
| HashTable.StepRefines | HTTP Proxy Effecient/hashmap.c:47-189 | each operation gives a map's answer and state |
| HashTable.RunRefines | HTTP Proxy Effecient/hashmap.c:47-189 | so does every sequence of put, get, isAvailable and removeKey |
| HashTable.RunsFromEmpty | HTTP Proxy Effecient/hashmap.c:150-154 | so from the empty table on, against the empty map |
| HashTable.Slot.constructor | HTTP Proxy Effecient/hashmap.c:15-15 | a null pointer is the empty list |
| HashTable.Slot.Lookup | HTTP Proxy Effecient/hashmap.c:111-131 | the walk finds the first node with the key |
| HashTable.Slot.SetValue | HTTP Proxy Effecient/hashmap.c:59-64 | the value of one node changes |
| HashTable.Slot.SetLink | HTTP Proxy Effecient/hashmap.c:83-83 | one pointer changes |
| HashTable.Slot.Append | HTTP Proxy Effecient/hashmap.c:83-83 | the new node is behind the last |
| HashTable.Slot.AddNode | HTTP Proxy Effecient/hashmap.c:27-40 | a node with the key, linked at the end |
| HashTable.Slot.Put | HTTP Proxy Effecient/hashmap.c:49-84 | the walk of put refines the chain's update |
| HashTable.Slot.Bypass | HTTP Proxy Effecient/hashmap.c:178-178 | one node is unlinked, the others stay linked in order |
| HashTable.Slot.DropNode | HTTP Proxy Effecient/hashmap.c:165-169 | the first node with the key goes |
| HashTable.Slot.Remove | HTTP Proxy Effecient/hashmap.c:158-188 | the walk of removeKey refines the chain's removal |
| HashTable.Slot.Clear | HTTP Proxy Effecient/hashmap.c:137-146 | every node of the list is released once |
| HashTable.Table.constructor | HTTP Proxy Effecient/hashmap.c:150-154 | initTable: every list is empty |
| HashTable.Table.AbsOk | HTTP Proxy Effecient/hashmap.c:15-15 | in every valid state each node sits in its hash bucket and no key occurs twice |
| HashTable.Table.IsAvailable | HTTP Proxy Effecient/hashmap.c:86-109 | whether the key is stored |
| HashTable.Table.Get | HTTP Proxy Effecient/hashmap.c:111-131 | the key's node, never a released one, or null |
| HashTable.Table.Put | HTTP Proxy Effecient/hashmap.c:47-85 | the table becomes the updated one; lists stay linked, acyclic and apart |
| HashTable.Table.RemoveKey | HTTP Proxy Effecient/hashmap.c:156-189 | the key's node is unlinked and released, and no other |
| HashTable.Table.FreeTable | HTTP Proxy Effecient/hashmap.c:133-148 | exactly the nodes in use are released and the table is empty |
| EchoWire.CounterOnWire | Mini Project 27-1-26/datapack.h:6-14 | after `htonll` a counter lies in memory most significant byte first, on little- and big-endian hosts |
| EchoWire.CounterFromWire | Mini Project 27-1-26/datapack.h:16-24 | `ntohll` reads back the number whose network order lies in memory |
| EchoWire.PackHeld | Mini Project 27-1-26/datapack.h:48-60 | one trip delivers the texts padded to the last place but one |
| EchoWire.PackAgain | Mini Project 27-1-26/datapack.h:48-60 | the second trip delivers the same fields, byte for byte |
| EchoWire.CounterSurvives | Mini Project 27-1-26/datapack.h:62-80 | a signed 64-bit counter survives from any host to any host |
| EchoWire.ReplyLayout | Mini Project 27-1-26/datapack.h:62-71 | the 149 bytes of a reply: message and time padded with spaces, a NUL, and the counters in two's complement, most significant byte first, written by either kind of host |
| EchoWire.ArrivedIs | Mini Project 27-1-26/datapack.h:53-60 | what the receiver holds of the texts, character by character |
| Bytes.BigEndianAt | Mini Project 27-1-26/datapack.h:6-14 | byte i of k in network order is that digit of the number in base 256 |
| Bytes.FromBigSpelled | TicTacToe/Server/frame.c:35-58 | two and eight bytes as numbers, written out |
| EchoWire.PrintPadded | Mini Project 27-1-26/datapack.h:50-50 | one field of the format: its text, then spaces, and nothing else written |
| EchoWire.PackClientData | Mini Project 27-1-26/datapack.h:48-51 | the buffer holds the packed fields and a terminator |
| EchoWire.UnpackClientData | Mini Project 27-1-26/datapack.h:53-60 | the fields are copied and terminated in the last place |
| EchoWire.PackServerData | Mini Project 27-1-26/datapack.h:62-71 | text, then both counters in network byte order |
| EchoWire.UnpackServerData | Mini Project 27-1-26/datapack.h:73-80 | the record holds what the buffer's fields and counters say |
| EchoWire.ExchangeKeepsAll | Mini Project 27-1-26/datapack.h:48-80 | client pack, server unpack and pack, client unpack: texts unchanged, both 64-bit counters survive, hosts of any byte order |
| EchoWire.TrimExactly | Mini Project 27-1-26/datapack.h:124-136 | `trim` of what arrived gives the message back if and only if it is not empty and does not end in a space; it leaves the array at its front if and only if the message is empty or all spaces; otherwise the trailing spaces are gone |
| EchoWire.TrimIs | Mini Project 27-1-26/datapack.h:124-136 | for every field: what `trim` cuts off are spaces and NULs up to the last other character; it leaves the result at its end if that is the field's last |
| EchoWire.ScanStaysInside | Mini Project 27-1-26/datapack.h:127-130 | for every text: the scan from its end stays inside if and only if there is a character that is neither space nor NUL |
| EchoWire.EmptyMessageLeaves | Mini Project 27-1-26/datapack.h:124-130 | the empty message: its field arrives as spaces and a NUL, and the scan leaves the array |
| EchoWire.Trim | Mini Project 27-1-26/datapack.h:124-136 | for every array the two loops compute that result, and stop where the source would leave an array |
| EchoWire.Stream.constructor | Mini Project 27-1-26/datapack.h:82-122 | a connection starts with nothing sent and nothing taken |
| EchoWire.Stream.Send | Mini Project 27-1-26/datapack.h:88-94 | `send` takes any nonempty part of the data, or fails |
| EchoWire.Stream.Recv | Mini Project 27-1-26/datapack.h:106-119 | `recv` hands over any part of what came in, the other side sending meanwhile |
| EchoWire.Stream.SendAll | Mini Project 27-1-26/datapack.h:82-97 | the whole buffer goes out, in however many pieces, or a proper part and -1 |
| EchoWire.Stream.RecvAll | Mini Project 27-1-26/datapack.h:99-122 | the next n bytes of the stream, however they come, or 0 or -1 |
| EchoWire.BlockAt | Mini Project 27-1-26/datapack.h:82-122 | the k-th block of the stream is the k-th buffer |
| EchoWire.StepOk | Mini Project 27-1-26/datapack.h:82-122 | each piece sent or received keeps both sides in step |
| EchoWire.RunOk | Mini Project 27-1-26/datapack.h:82-122 | over all interleavings and chunkings the k-th `recvall` returns the k-th `sendall` buffer |
| EchoWire.AllGot | Mini Project 27-1-26/datapack.h:99-122 | when all sent bytes are taken all sent buffers are received |
| EchoWire.RunFromStart | Mini Project 27-1-26/datapack.h:82-122 | from the start of a connection: what has been received is a prefix of what was sent, and all of it once all bytes are taken |
| EchoWire.PiecesArrive | Mini Project 27-1-26/datapack.h:82-122 | whenever nothing is under way the next buffer can be sent in pieces of any sizes and received in pieces of any other, and arrives |
| LineSort.LexOpposite | 6-1-26/5-16.c:69-72 | the order is antisymmetric, and 0 means equal |
| LineSort.LexTransitive | 6-1-26/5-16.c:69-72 | the order is transitive |
| LineSort.LexExactly | 6-1-26/5-16.c:69-72 | the first place where the strings differ decides, by the characters' values, or one string ends there |
| LineSort.KeepLaws | 6-1-26/5-16.c:90-111 | letters, figures and spaces, each written out, are kept in order, and nothing else |
| LineSort.FoldSame | 6-1-26/5-16.c:75-87 | two strings fold alike if and only if they agree position by position up to the case of letters |
| LineSort.CaseIgnored | 6-1-26/5-16.c:75-87 | so the comparison does not change when the case of letters does |
| LineSort.DirCmp | 6-1-26/5-16.c:90-111 | the sign is that of the comparison of the strings reduced to letters, digits and spaces |
| LineSort.DirCaseCmp | 6-1-26/5-16.c:114-139 | the same in lower case; 0 if and only if what is kept agrees position by position up to the case of letters |
| LineSort.StrCaseCmp | 6-1-26/5-16.c:75-87 | the sign is that of the comparison in lower case; 0 if and only if the strings agree up to the case of letters |
| LineSort.OrdersOk | 6-1-26/5-16.c:69-139 | all these comparators are total preorders |
| Texts.Alphabet | 6-1-26/5-16.c:80-138 | which characters are letters and figures, by the alphabets written out; no other character has a case |
| Texts.LowerCase | 6-1-26/5-16.c:80-138 | the lower case of the k-th capital is the k-th small letter |
| Texts.LowerSame | 6-1-26/5-16.c:80-138 | two characters have one lower case if and only if they are the same or the two cases of one letter |
| LineSort.Sort | 6-1-26/5-16.c:142-163 | sorted, reversed or not, a rearrangement of the input, and stable, despite the early exit |
| Bubble.Pass | 6-1-26/5-16.c:149-159 | one pass puts the greatest element in its place, keeps ties in order, and changes nothing only if all is sorted |
| Bubble.StableSwap | 6-1-26/5-16.c:154-158 | an exchange of neighbours out of order keeps tied elements in order |
| Bubble.NeighboursSuffice | 6-1-26/5-16.c:160-161 | no neighbours out of order means nothing out of order: the early exit is right |
| Bubble.TracksOnto | 6-1-26/5-16.c:142-163 | the rearrangement leaves no element out |
| WordCount.InsertSearch | 7-1-26/6-4.c:82-105 | insertion keeps the tree a search tree |
| WordCount.InsertCount | 7-1-26/6-4.c:82-105 | insertion counts the word once more, and no other |
| Texts.TimesIs | 7-1-26/6-4.c:82-105 | the number of times a word was read is its multiplicity |
| WordCount.InsertAllOk | 7-1-26/6-4.c:82-105 | after any words the tree is a search tree with the exact number of occurrences of every word |
| WordCount.SearchAlphabetical | 7-1-26/6-4.c:121-130 | the walk in order is strictly alphabetical |
| WordCount.WalkCounts | 7-1-26/6-4.c:121-130 | the walk lists exactly the counted words with their counts |
| WordCount.ByFrequencyWeak | 7-1-26/6-4.c:139-139 | the exchange condition is a strict weak order |
| WordCount.Ranking | 7-1-26/6-4.c:132-150 | the sorted array holds each word once with its count, by falling count, then strictly alphabetically |
| WordCount.Node.constructor | 7-1-26/6-4.c:69-89 | a new node counts its word once |
| WordCount.AddTree | 7-1-26/6-4.c:82-105 | the linked tree becomes the one with the word inserted, and the word's node is returned |
| WordCount.AddRight | 7-1-26/6-4.c:96-99 | the descent to the right: only the right subtree changes |
| WordCount.AddLeft | 7-1-26/6-4.c:100-103 | the descent to the left |
| WordCount.SortedTree | 7-1-26/6-4.c:121-130 | the recursion writes the walk at the index, and nothing else |
| WordCount.SortOnFrequency | 7-1-26/6-4.c:132-150 | a rearrangement in ranking order, despite the early exit |
| WordCount.Rank | 7-1-26/6-4.c:205-221 | from the words read to the ranking: each word once with its exact count, in order |
| HttpHeaders.SentLines | HTTP Proxy Server/epollproxyserver.c:117-174 | the header lines sent are the kept ones in order, a Host line if there was none, and the closing one, and nothing follows the empty line behind them |
| HttpHeaders.SentConnection | HTTP Proxy Server/epollproxyserver.c:143-168 | every sent block has a Host line (section 5.4 of RFC 7230) and `Connection: close` as its last and only Connection line, no Proxy-Connection |
| HttpHeaders.KeepOk | HTTP Proxy Server/epollproxyserver.c:143-156 | a line is kept if and only if it is neither Connection nor Proxy-Connection |
| HttpHeaders.DroppedIs | HTTP Proxy Server/epollproxyserver.c:143-151 | a line is dropped if and only if `Connection:` or `Proxy-Connection:` stands at its start in letters of either case; so for `Host:` |
| HttpHeaders.NameAtIs | HTTP Proxy Server/epollproxyserver.c:144-151 | the comparison asks for the name up to the case of letters |
| HttpHeaders.CaseIgnored | HTTP Proxy Server/epollproxyserver.c:144-151 | whether a line is dropped does not change when the case of its letters does |
| HttpHeaders.RootRequest | HTTP Proxy Server/epollproxyserver.c:117-174 | a request with a body, one header line and a Connection line in small letters, and the text that the server receives for it |
| HttpHeaders.KeepInOrder | HTTP Proxy Server/epollproxyserver.c:143-156 | the kept lines stand in their order, each as often as it was read: the lines at the ascending places of those to be kept |
| HttpHeaders.PlacesOk | HTTP Proxy Server/epollproxyserver.c:143-156 | these places ascend and are exactly those of the lines to be kept |
| HttpHeaders.BlockReadsBack | HTTP Proxy Server/epollproxyserver.c:137-160 | a block of lines with its empty line is read back line by line |
| HttpHeaders.ReadLines | HTTP Proxy Server/epollproxyserver.c:137-160 | what the loop takes for a line is one |
| HttpHeaders.RewrittenTwice | HTTP Proxy Server/epollproxyserver.c:135-168 | rewriting rewritten lines changes nothing |
| HttpHeaders.ForwardTwice | HTTP Proxy Server/epollproxyserver.c:117-174 | for the same parsed request a second pass sends exactly what it received |
| HttpHeaders.ForwardIgnoresBody | HTTP Proxy Server/epollproxyserver.c:135-174 | what is sent depends only on the text up to the empty line |
| HttpHeaders.TailIsBody | HTTP Proxy Server/epollproxyserver.c:458-465 | what the callers find with `strstr` behind the first empty line is the body, for every text: the search and the loop over the lines end at the same place |
| HttpHeaders.BodyArrives | HTTP Proxy Server/epollproxyserver.c:457-465 | what the server receives is the rewritten header lines and then exactly the body that came with the chunk; so at lines 499-507 |
| HttpHeaders.ChunksArrive | HTTP Proxy Server/epollproxyserver.c:499-540 | wherever behind the empty line the first chunk ends, the rest being relayed, the server receives the same |
| HttpHeaders.DeliveredTwice | HTTP Proxy Server/epollproxyserver.c:457-465 | a second proxy delivers, for the same parsed request, the very message it received, body included |
| HttpHeaders.OptionsExactly | HTTP Proxy Server/epollproxyserver.c:143-156 | the received fields sent on are those that section 6.1 of RFC 7230 leaves if and only if no line to be kept is named by a Connection line |
| HttpHeaders.PartsLaw | HTTP Proxy Server/epollproxyserver.c:143-156 | the options of a Connection line are what stands between its commas, blanks stripped |
| HttpHeaders.NamedIs | HTTP Proxy Server/epollproxyserver.c:143-156 | a line is named by an option if the option and a colon stand at its start in letters of either case |
| HttpHeaders.SentUnnamedExactly | HTTP Proxy Server/epollproxyserver.c:135-168 | no line sent is so named if and only if no line to be kept is, nor the closing Connection line, nor an added Host line |
| HttpHeaders.NamedFieldSent | HTTP Proxy Server/epollproxyserver.c:143-156 | a field named by a Connection line, which is sent on |
| HttpHeaders.NameInLine | HTTP Proxy Server/epollproxyserver.c:144-151 | the comparison at the line's start cannot run over its end |
| HttpHeaders.FindEnd | HTTP Proxy Server/epollproxyserver.c:139-139 | `strstr` for the line's end |
| HttpHeaders.StrNCaseCmp | HTTP Proxy Server/epollproxyserver.c:144-151 | the comparison of a name without regard to case |
| HttpHeaders.CopyOrDrop | HTTP Proxy Server/epollproxyserver.c:143-159 | one round: the line is dropped, or copied if it fits, and a Host line noticed |
| HttpHeaders.CopyLines | HTTP Proxy Server/epollproxyserver.c:137-160 | the loop appends the kept lines and notices a Host line; it leaves the buffer only if they do not fit |
| HttpHeaders.ForwardHttpRequest | HTTP Proxy Server/epollproxyserver.c:117-174 | for texts of any length: nothing is sent if the buffer holds no line, the specified text if that fits the buffer, and otherwise some write leaves the buffer |
| HttpHeaders.Snprintf | HTTP Proxy Server/epollproxyserver.c:124-128 | `snprintf` at an offset: cuts and terminates what does not fit, counts all of it, and stays inside unless the offset is behind the end, where the size wraps |
| HttpHeaders.Memcpy | HTTP Proxy Server/epollproxyserver.c:154-156 | `memcpy` at an offset: stays inside if and only if the text fits |
| HttpHeaders.Finish | HTTP Proxy Server/epollproxyserver.c:166-173 | the closing line and the empty line, and what is sent, if that is inside |
| HttpHeaders.FindHeaderEnd | HTTP Proxy Server/epollproxyserver.c:458-458 | `strstr` for the empty line |
| HttpHeaders.ForwardChunk | HTTP Proxy Server/epollproxyserver.c:457-465 | the call site: the server receives the header and the rest of the chunk behind it, unless the buffer is left |
| HttpHeaders.ForwardBound | HTTP Proxy Server/epollproxyserver.c:117-174 | how long the text gets: at most what was received, with its own first line, an added Host line, the closing line and the empty line |
| HttpHeaders.HeaderLeaves | HTTP Proxy Server/epollproxyserver.c:153-156 | for every parsed request a text that fits the buffer it is received in and whose copy leaves the other |
| Numerals.DigitsOk | 22-12-25/3-4.c:86-108 | the digits have no leading zero, are below the base, and stand for the number |
| Numerals.CanonicalUnique | 22-12-25/3-4.c:86-108 | no other text of that form stands for the same number |
| Numerals.TextReadsBack | 22-12-25/3-4.c:86-108 | the text of any integer, in any base from 2 to 16, reads back as it |
| Numerals.DigitListed | 22-12-25/3-4.c:86-108 | the digits, and their values in either case, written out; no other character has one |
| Numerals.Texts | 22-12-25/3-4.c:86-108 | some texts of numbers, of either sign and in bases 10, 16 and 2 |
| Numerals.DivisionLaw | 22-12-25/3-4.c:89-100 | C's quotient and remainder, by the division law and the sign of the dividend |
| Numerals.EmittedBackwards | 22-12-25/3-4.c:90-93 | the digits as the loop writes them, reversed, are the number's |
| Numerals.Reverse | 22-12-25/3-4.c:59-68 | the two-index loop reverses the text in place |
| Numerals.ReverseHalves | 24-12-25/4-12.c:19-26 | so does the loop over the first half |
| Numerals.EmitPositive | 22-12-25/3-4.c:89-93 | the loop for a positive number writes its digits, the last one first |
| Numerals.EmitNegative | 22-12-25/3-4.c:95-100 | the loop for a negative one, without ever negating the number |
| Numerals.MyItoa | 22-12-25/3-4.c:86-108 | the canonical decimal text for every 32-bit int, the least one included, no intermediate value out of range |
| Numerals.MyPrintd | 24-12-25/4-12.c:10-17 | the recursion writes the digits from the shared index on, for either sign |
| Numerals.Printd | 24-12-25/4-12.c:28-42 | the same text as `my_itoa`, for every int |
| Numerals.Itob | 22-12-25/3-5.c:21-55 | the text in the base for bases 2 to 16, nothing for others; a lone minus sign for the least int |
| Numerals.ItobExactly | 22-12-25/3-5.c:30-51 | the text reads back as the number if and only if it is not the least int |
| Numerals.Htoi | 18-12-25/2-3.c:11-31 | -1 for anything but 0x or 0X and hexadecimal digits, else the value modulo 2 to the 32 |
| Numerals.HexOfItob | 18-12-25/2-3.c:11-31 | `htoi` of 0x and `itob(n,16)` is n for every nonnegative int |
| Numerals.HexIs | 18-12-25/2-3.c:11-31 | which texts are taken, with either prefix, and that every other one gives -1 |
| Numerals.WrapLaw | 18-12-25/2-3.c:11-31 | wrapping gives the number of the same class modulo 2 to the 32 that an int can hold |
| Numerals.HexExactly | 18-12-25/2-3.c:11-31 | the value is returned if and only if it fits an int |
| Numerals.HexWraps | 18-12-25/2-3.c:11-31 | eight digits whose value comes out as the least int |

## Left out

- Sockets, epoll, threads, terminals and printing: abstract steps and arbitrary answers take their place.
- TicTacToe: disconnects in the middle of a match, `send_peer_close_response_to_another_peer`, messages for a match already freed, and match ids at or above MAX_MATCHES.
- TicTacToe.Server.MoveReceived: the messages are values here; their text form and frames are the business of Messages and Frames.
- Frames: `deep_copy` and `printFrame`, which only copy and print. The most significant bit of a 64-bit length, which RFC 6455 reserves, is read like any other, as the code does.
- HashTable: `free` is a set of released nodes; copies of keys and values are values, so their own allocations are not tracked.
- WordCount.SortOnFrequency: sorts the entries that `tree_sorted` points to instead of the pointers, in an array of exactly that many places; the line numbers of `main` and reading words are not modelled.
- LineSort: `numcmp`, which compares floating-point numbers, and reading the lines. A function passed for a comparator stands for its specification.
- Proxy: the response cache, which stores each relayed chunk over the last one; requests and passwords are answers of the environment.
- EchoWire.Stream.SendAll: no other sender uses the stream; both ends moving together is modelled step by step (EchoWire.RunOk).
- HttpHeaders: authorization, parsing, the response cache and tunnels; `send_all` has the shape of EchoWire.Stream.SendAll.
- EchoServer: signals, such as the one a send on a socket just shut down would raise; whether recv returns 0 when its socket is shut down, or still a message, is left to the environment.
- Stdio: permission bits and the kernel's descriptor table.
- Stdio.MyFile.Putc: cannot be called while the stream claims room without a buffer, where the source writes through NULL; Stdio.WriteSession stops there and says so.
- TicTacToe.RunOk: the two browsers are different clients, and each stays in its match; a client that creates or joins another match meanwhile, or joins its own, is covered by the contracts of the server's methods alone.
- Duplicates and easy exercises: other versions of the allocator, the streams, the hash tables and the mini projects; string copies, counters, histograms, date tables, binary search, stacks, calculators.
- OpenSSL, SHA-1, Base64, curl, browser extensions and style sheets.
