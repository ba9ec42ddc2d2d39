# Phantom OS: verified models of the tetris engine, the Mach queue and five small components

This project models components of Phantom OS in Dafny and proves what they promise.

* **Tetris** (`Cells`, `Pieces`, `Screens`, `Pits`, `Wells`, `Games`, `Rules`, `Play`). The engine keeps a grid with a floor row,
  a redundant count per row, sorted lists of cells ended by a mark, and a screen that is only ever changed cell by cell.
  `Games` is the game as a state machine over the pit and the falling piece alone. `Play` and `Wells` are the program:
  arrays, counters and screen changed in place. Every turn of the program is proved to do what the state machine does and
  to keep the redundant data (counts, cell list, screen) in agreement with it, for every sequence of keys, clock ticks and
  random numbers. The state machine's invariant, conservation of cells, and the relation between dropping, falling and
  waiting are then proved over whole runs. `Rules` says in plain terms, without the machine's own functions, what every
  kind of turn does to pit, piece, clock and waiting keys.
* **The Mach queue** (`Queues`, `QueueRuns`). Heads and elements are heap objects. An element has a pair of links per chain field.
  The operations are proved on the level of every single link, and from that come the sequence they stand for, that
  removal undoes each form of insertion link by link, and that other queues are left alone, including queues that run
  through other chain fields of the same elements. `QueueRuns` carries this to whole runs over any number of queues, in
  which elements move from queue to queue.
* **Smaller components**: NetBIOS first-level names (`NetbiosNames`, section 14.1 of RFC 1001), the legacy virtqueue layout
  (`Virtqueues`), ACPICA's packed argument lists and power-of-two arithmetic (`AmlArgs`, over `Bits`), the saturating
  reference count as x86 instructions (`Saturate`), and the byte ring buffer (`RingBuffers`).

## Modelling decisions

* The grid holds `bool`: the program stores only 0 and 1 there and only tests for zero and for equality.
* The screen is the set of lit cells. A ghost log of drawing calls records how it was reached.
* Keys, clock and random numbers are inputs: a turn receives the keys that arrive before it and the two random numbers that
  a new piece would use. The main loop never ends; it is modelled for every finite number of turns.
* `random()` returns an unsigned word, so its remainders are never negative; a new piece has angle 0, 1 or 2.
* A cell list is an array that holds a sequence and then the end mark. The program relies on no cell having the mark's row
  number; the callers are proved to provide that.
* A queue link is either a link to the head or a link to an element, which is what the macros' casts distinguish by
  comparing with the head's address. Chain fields of an element are entries of two maps.
* Bitwise operators are defined on naturals bit by bit, so the rounding results hold for every word width;
  addresses and `unsigned long` are taken to have at least the 32 bits of `unsigned int` where sizes are concerned.
* `char` is signed and two's complement, as on the machines the system runs on.
* Machine integers that cannot overflow in the modelled code are unbounded; where a word can wrap, the wrap is written out.

## Where the code does not do what one might expect

* `ring_get` returns -1 for an empty ring and also for the byte 0xFF (`MisledOnce`). `SafeToUse` states on the operations,
  and `CallerSeesAll` on a given ring's input, exactly when a caller is not misled.
* `vring_size` returns a 32-bit number (`SizeCut`). `SizeExact` and `LayoutEnd` state exactly when it is the size of the
  laid out rings.
* `ACPI_ROUND_UP` wraps to zero near the top of the address space (`RoundUpLargest`). `RoundUpIsCeil` states exactly when it
  rounds up.
* A reference count decremented below zero is stuck at all ones (`UnderflowOnce`, `UnderflowSticks`). `PromiseKept` states
  exactly on which runs the counter is right throughout.
* `translate` keeps a piece inside the pit's columns only for centre columns up to PITWIDTH (`BarOutside`, `ClampExact`).

## Model

| member | source | states |
|---|---|---|
| `Pieces.ShapeTable` | etc/attic/tetris.c:58-87 | every piece has four distinct cells inside its box, the box is at most 2 by 4, and the list ends with the mark |
| `Pieces.ShapeSpans` | etc/attic/tetris.c:67-87 | every piece touches all four sides of its box |
| `Pieces.ShapeConnected` | etc/attic/tetris.c:67-87 | every piece hangs together: any part of it shares an edge with the rest |
| `Pieces.PiecesDiffer` | etc/attic/tetris.c:67-87 | no piece is a turned copy of another |
| `Pieces.FourTurns` | etc/attic/tetris.c:103-137 | four quarter turns, with the box extents changing places each time, are the identity |
| `Pieces.OrientationIsQuarterTurns` | etc/attic/tetris.c:103-137 | for any number n of quarter turns, the result is the orientation case n mod 4 |
| `Pieces.TurnStep` | etc/attic/tetris.c:118-134 | each orientation case is a quarter turn of the one before |
| `Pieces.TurnedIsBijection` | etc/attic/tetris.c:103-137 | each orientation has an inverse and maps the box exactly onto the turned box |
| `Pieces.PlaceBlocks` | etc/attic/tetris.c:103-138 | the array holds the turned and shifted cells in table order and the end mark |
| `Cells.SwapRemovesOneInversion` | etc/attic/tetris.c:142-151 | exchanging two neighbours in the wrong order removes exactly one inversion and does not change the sorted outcome |
| `Pieces.BubblePass` | etc/attic/tetris.c:141-151 | one pass makes as many exchanges as it removes inversions, and none only if the list is sorted |
| `Pieces.BubbleSort` | etc/attic/tetris.c:140-152 | the passes end, and the array holds the sorted list |
| `Cells.SortedUnique` | etc/attic/tetris.c:140-152 | a sorted arrangement is determined by its cells, so the sort has only one correct outcome |
| `Pieces.Translate` | etc/attic/tetris.c:98-153 | the array holds the sorted cells of the turned piece and the end mark |
| `Pieces.Placement` | etc/attic/tetris.c:98-138 | a cell is one of the placed piece's iff it is a block after that many quarter turns in a box whose top row follows the centre row and whose left column is the centre column less half the width, or is at the wall the box would cross |
| `Pieces.HookPlaced` | etc/attic/tetris.c:98-153 | the second piece, turned once in the middle of the pit, cell by cell |
| `Pieces.TranslatedSorted` | etc/attic/tetris.c:98-153 | the outcome is the sorted permutation of the placed cells, strictly sorted if the piece's cells are distinct |
| `Pieces.TranslatedInBox` | etc/attic/tetris.c:110-137 | no cell leaves the placed box, and for centre columns up to PITWIDTH none leaves the pit's columns |
| `Pieces.ClampExact` | etc/attic/tetris.c:110-137 | for every piece that touches its box's sides: all its cells lie within the pit's columns if and only if the centre column is at most PITWIDTH |
| `Pieces.BarOutside` | etc/attic/tetris.c:115-116 | with its centre in column 13 the four-block bar has a cell in column 14 |
| `Pieces.TranslatedBottom` | etc/attic/tetris.c:110-137 | a piece that touches its box's sides has a cell in the lowest row of the placed box |
| `Pieces.TranslatedLowered` | etc/attic/tetris.c:98-153 | lowering the centre lowers every cell by as much and keeps the order of the list |
| `Pieces.TranslatedSideways` | etc/attic/tetris.c:98-153 | one more centre column moves every cell one column away from the walls, and none at a wall; the order of the list stays |
| `Screens.Screen.DrawBlock` | etc/attic/tetris.c:158-183 | lights or darkens exactly one cell |
| `Screens.Move` | etc/attic/tetris.c:188-219 | for end-marked lists of any length the walk ends and makes the drawing calls of the merge |
| `Screens.MoveIsExact` | etc/attic/tetris.c:188-219 | for strictly sorted lists a cell is drawn iff it is visible and only in the new list, darkened iff visible and only in the old one, and no cell is touched twice |
| `Screens.MoveRedraws` | etc/attic/tetris.c:188-219 | a screen showing a background and the old list then shows the same background and the new list |
| `Wells.Well.Clear` | etc/attic/tetris.c:224-237 | grid and counts are those of the empty pit with its floor, and the grid's area of the screen is dark |
| `Wells.Well.Place` | etc/attic/tetris.c:247-258 | over iff some cell is not below the top row; otherwise exactly the cells are added, counts agree, and nfull is the number of full rows |
| `Pits.PutAllCells` | etc/attic/tetris.c:248-258 | after placing, a cell is occupied iff it was before or is one of the piece's |
| `Wells.Well.Redraw` | etc/attic/tetris.c:262-284 | the screen shows the pit as it will be after compaction, and every drawing call changed a cell, none twice |
| `Wells.Well.RedrawMoved` | etc/attic/tetris.c:271-284 | rows from nfull on show their compacted contents, taken from row h - k of the grid that is not yet compacted; the loop ends |
| `Pits.CompactRow` | etc/attic/tetris.c:272-284 | a surviving row moves down by the number of full rows below it |
| `Pits.CompactBelow` | etc/attic/tetris.c:273-284 | rows below the last full row stay |
| `Wells.Well.ShiftDown` | etc/attic/tetris.c:290-293 | one row is taken out of grid and counts and an empty row put on top |
| `Pits.RemoveFull` | etc/attic/tetris.c:287-295 | taking out one full row and pushing one empty row leaves the compacted pit the same, with one full row less |
| `Wells.Well.RemoveFullRows` | etc/attic/tetris.c:286-295 | the loop ends, and grid and counts are the compacted pit: full rows deleted, survivors in order, empty rows on top, floor untouched |
| `Wells.Well.Stopped` | etc/attic/tetris.c:242-296 | place the piece, delete the full rows, push as many empty rows; or the empty pit if a cell is not below the top row; counts and screen agree; no redundant drawing |
| `Pits.CompactedSettled` | etc/attic/tetris.c:242-296 | afterwards no row is full and the top row is empty |
| `Pits.LandingOccupied` | etc/attic/tetris.c:242-296 | occupancy grows by the piece's cells less PITWIDTH per full row |
| `Games.SpawnProbe` | etc/attic/tetris.c:319-326 | a piece coming from above first shows exactly at the spawning row |
| `Games.SpawnedKeepsInv` | etc/attic/tetris.c:313-334 | a new piece has its lowest row exactly in row 0 and overlaps nothing, in every settled pit |
| `Play.Game.FindSpawnRow` | etc/attic/tetris.c:319-327 | the loop over centre rows ends at the spawning row with the piece's cells in the list |
| `Play.Game.NewPiece` | etc/attic/tetris.c:313-336 | the next state of the machine, with list and screen in agreement |
| `Games.ProbesInPit` | etc/attic/tetris.c:349-354 | every probe by falling, turning or stepping sideways is in row at most PITDEPTH and in the pit's columns |
| `Play.Game.Probe` | etc/attic/tetris.c:395-396 | true iff a visible cell of the list is occupied; never reads outside the grid |
| `Play.Game.WithinColumns` | etc/attic/tetris.c:411-414 | true iff all cells are in the pit's columns |
| `Play.Game.Check` | etc/attic/tetris.c:411-424 | the piece goes to the new position iff it is free; list and screen follow |
| `Play.Game.Timeout` | etc/attic/tetris.c:342-356 | one row down if free, else the piece lands and the next one starts |
| `Play.Game.OnUp` | etc/attic/tetris.c:358-365 | one key served: turn back by one angle if it fits |
| `Play.Game.OnLeft` | etc/attic/tetris.c:367-376 | one key served: one column to the left if it fits, nothing at the edge |
| `Play.Game.OnRight` | etc/attic/tetris.c:378-387 | one key served: one column to the right if it fits, nothing at the edge |
| `Play.Game.FindRest` | etc/attic/tetris.c:392-398 | the search downwards ends at the last free position |
| `Play.Game.Drop` | etc/attic/tetris.c:389-405 | the piece lands at the last free position; pit, counts and screen are those of that landing |
| `Play.Game.Turn` | etc/attic/tetris.c:337-425 | one turn does one step of the state machine and keeps counts, list and screen in agreement |
| `Play.WindowLoop` | etc/attic/tetris.c:299-427 | for every finite run, pit, counts, list and screen are those of the state machine: the screen shows exactly the pit and the visible part of the piece |
| `Play.CoupledDisplays` | etc/attic/tetris.c:89-91 | the grid is the machine's pit, each count is the number of occupied columns of its row, and a cell of the screen is lit iff the pit or the piece has it |
| `Games.StepKeepsInv` | etc/attic/tetris.c:337-425 | every turn keeps the invariant |
| `Games.Run` | etc/attic/tetris.c:313-425 | in every reachable state no row is full, row 0 is empty, the floor is whole, the centre is inside the columns, and the visible part of the piece is inside the grid and overlaps nothing |
| `Games.SidewaysUndone` | etc/attic/tetris.c:367-387 | a sideways step that was made is always undone by the opposite key |
| `Games.FullTurn` | etc/attic/tetris.c:358-365 | where all four orientations are free, four turns restore the state |
| `Games.DropIsRepeatedTimeouts` | etc/attic/tetris.c:342-405 | dropping leaves the state that repeated timeouts leave: every position on the way is free and the next one down is blocked |
| `Games.FallingPiece` | etc/attic/tetris.c:342-355 | after n timeouts every cell of the piece is n rows lower |
| `Games.LeftAloneItLands` | etc/attic/tetris.c:337-409 | without keys every piece comes to rest after finitely many turns, where dropping it would put it |
| `Games.LandedConserves` | etc/attic/tetris.c:242-296 | a landing changes the number of occupied cells by 4 less 12 per full row, or empties the pit |
| `Games.RunConserves` | etc/attic/tetris.c:242-296 | over every run the occupied cells are 4 per piece landed less 12 per row removed since the pit was last emptied |
| `Rules.UpTurns` | etc/attic/tetris.c:358-424 | with a turn waiting or arriving and time left: one is served, the angle goes back by one iff no visible cell there is occupied, and only counters change besides |
| `Rules.LeftSteps` | etc/attic/tetris.c:367-424 | with no turn but a step to the left: one is served, the column goes down by one iff it was positive and the cells there are free |
| `Rules.RightSteps` | etc/attic/tetris.c:378-424 | with neither of those but a step to the right: one is served, the column goes up by one iff it was not the last and the cells there are free |
| `Rules.DownLands` | etc/attic/tetris.c:389-405 | with only a drop: one is served and the piece lands at the last of the free positions straight below |
| `Rules.IdleWaits` | etc/attic/tetris.c:407-409 | with no key only 10 ms pass |
| `Rules.TimeoutFalls` | etc/attic/tetris.c:342-424 | with time up no key is served; if the row below is free the piece is one row lower with 500 ms on the clock |
| `Rules.TimeoutLands` | etc/attic/tetris.c:342-356 | with time up and the row below not free the piece lands where it is; the waiting keys stay |
| `Rules.LandingRule` | etc/attic/tetris.c:242-296 | the pit after a landing cell by cell: a row that the piece does not complete is lower by the number of completed rows below it, the top rows are empty, the floor stays; all empty if the piece reaches the top row |
| `Rules.SpawnedDealt` | etc/attic/tetris.c:313-336 | the next piece is the first random number modulo 7 at the second modulo 3, over column 5, with its lowest row in row 0 and 500 ms; pit and waiting keys stay |
| `Rules.FirstPiece` | etc/attic/tetris.c:313-336 | the same of the first piece, over an empty pit with no key waiting |
| `Rules.Starts` | etc/attic/tetris.c:316-317 | each of the seven pieces in each of three orientations comes first for some random numbers, and nothing else does |
| `Rules.Follows` | etc/attic/tetris.c:316-317 | the same of the piece that follows one that has come to rest |
| `Rules.RunKeys` | etc/attic/tetris.c:337-409 | over every run the keys that arrived are those served, one per serving turn, and those waiting |
| `Queues.Init` | include/queue.h:79-79 | an empty queue for every chain field |
| `Queues.Enter` | include/queue.h:162-176 | every link as after splicing in at the tail; the sequence gains the element at the end |
| `Queues.EnterFirst` | include/queue.h:189-203 | every link as after splicing in at the front; the sequence gains the element at the front |
| `Queues.EnterBefore` | include/queue.h:216-234 | inserts at the position given, which may be the head |
| `Queues.EnterAfter` | include/queue.h:247-265 | inserts behind the position given, which may be the head |
| `Queues.Remove` | include/queue.h:284-300 | every link as after splicing out; the sequence loses exactly that position |
| `Queues.RemoveFirst` | include/queue.h:311-323 | returns the first element; the sequence loses it |
| `Queues.SplicedInRing` | include/queue.h:162-265 | splicing a new element in at any position keeps the ring in both directions |
| `Queues.SplicedOutRing` | include/queue.h:284-323 | splicing any element out keeps the ring in both directions |
| `Queues.SpliceUndone` | include/queue.h:162-300 | taking out what was put in restores every link of the head and of all other elements |
| `Queues.InsertThenRemove` | include/queue.h:162-300 | for every form of insertion, removal restores all links in memory |
| `Queues.Insert` | include/queue.h:44-55 | any insertion leaves every other queue as it was, also those the same elements are on through other chain fields |
| `Queues.Delete` | include/queue.h:44-55 | any removal leaves every other queue as it was |
| `Queues.Iterate` | include/queue.h:371-374 | ends, having visited each element once, in order |
| `Queues.IterateBack` | include/queue.h:376-379 | ends, having visited each element once, in reverse |
| `Queues.Assign` | include/queue.h:351-356 | a non-empty queue's elements, in order, are on the other head; queues apart from it stay as they were |
| `Queues.EffectRule` | include/queue.h:162-323 | each operation on the sequence: the new element between the two parts that its form names, the named element gone, or the first gone |
| `QueueRuns.Do` | include/queue.h:44-55 | one operation on one queue of a system of queues: memory then holds the system with that one sequence changed, and an element removed as the first is handed back, nothing else is |
| `QueueRuns.SeparateKept` | include/queue.h:44-55 | every legal operation keeps heads apart and each element at most once on the queues of a chain field |
| `QueueRuns.Run` | include/queue.h:162-323 | every legal run of operations on any number of queues does to memory what it does to the map from queues to sequences, hands back the popped elements in order, and keeps the queues separate |
| `QueueRuns.HandedBack` | include/queue.h:311-315 | over every legal run one element is handed back per removal of the first, in their order, and it is the one that was first on that queue just before |
| `QueueRuns.FirstInFirstOut` | include/queue.h:162-323 | over every legal run on any number of queues, for a queue used by insertion at the tail and removal of the first: what it handed back followed by what it holds is what it held followed by what entered |
| `QueueRuns.HandedFromOnly` | include/queue.h:311-323 | if the run uses that queue alone, that is all the run hands back |
| `QueueRuns.AboardAfter` | include/queue.h:162-323 | an operation brings onto its chain field exactly who enters and takes off exactly who leaves |
| `QueueRuns.RunConserves` | include/queue.h:162-323 | over every legal run each chain field carries as many elements as before plus insertions less removals |
| `QueueRuns.Migration` | include/queue.h:162-300 | an element can always leave its queue for any position of another queue of the same chain field; only those two sequences change and nobody is lost |
| `NetbiosNames.UpperStored` | include/phantom_libc.h:76-76 | upper-casing a sign-extended character and storing it in a byte changes ASCII lower-case letters only |
| `NetbiosNames.EncodeLabel` | etc/attic/winsd.c:164-185 | names over 15 bytes are refused, others give the encoding of the padded name |
| `NetbiosNames.ReadSpelled` | etc/attic/winsd.c:176-184 | reading pairs of letters gives back the bytes spelled |
| `NetbiosNames.EncodingFaithful` | etc/attic/winsd.c:164-185 | 32 letters from A to P and a zero; decoding gives the upper-case space-padded name with a zero last; two names encode alike iff they agree up to ASCII case and trailing spaces |
| `NetbiosNames.EncodedBytes` | etc/attic/winsd.c:164-185 | the sixteen bytes spelled, one by one: the name's with ASCII lower case raised, then spaces, then a zero, so that the last two letters are A; each byte is spelled high half first |
| `Virtqueues.Vring.Init` | include/virtio_ring.h:113-121 | stores the addresses, and lays the rings out in order for every power-of-two alignment |
| `Virtqueues.Layout` | include/virtio_ring.h:91-121 | descriptors, available ring and used ring follow each other without overlap; the used ring is aligned with less than one alignment of padding |
| `Virtqueues.SizeIsSpan` | include/virtio_ring.h:123-128 | unless 2 + num wraps, the size is the rings' span cut to 32 bits, for every alignment |
| `Virtqueues.SizeExact` | include/virtio_ring.h:123-128 | for every ring size, also where 2 + num wraps, and every alignment: the size is the span iff the span is less than 2^32 |
| `Virtqueues.SizeTooSmall` | include/virtio_ring.h:123-128 | otherwise the size is less than the rings take even without padding |
| `Virtqueues.LayoutEnd` | include/virtio_ring.h:113-128 | for every addressable ring: it ends at base plus span iff the base is aligned, and at base plus size iff moreover the span is less than 2^32 |
| `Virtqueues.SizeCut` | include/virtio_ring.h:123-128 | 2^28 entries with page alignment on a 64-bit machine: the size is short by 2^32 bytes |
| `Virtqueues.PageRing` | include/virtio_ring.h:46-128 | 256 entries with page alignment: available ring 4096 bytes, used ring 8192 bytes after the base, size 10244 |
| `AmlArgs.ParserListPacked` | include/acpi/acmacros.h:369-389 | or-ing shifted types packs up to six of them as digits to base 32 |
| `AmlArgs.InterpreterIsReversed` | include/acpi/acmacros.h:376-388 | packing with the first argument in the highest field is packing the reversed list with the first in the lowest |
| `AmlArgs.ListsDecode` | include/acpi/acmacros.h:369-392 | reading a parser list gives its types in order, reading an interpreter list gives them in reverse, then only zeros |
| `AmlArgs.NeverInvalid` | include/acpi/amlcode.h:356-356 | no legal list is the invalid-opcode mark |
| `AmlArgs.ReadTypes` | include/acpi/acmacros.h:391-392 | shifting in place until the end mark reads exactly the decoded types |
| `AmlArgs.PowersOfTwo` | include/acpi/acmacros.h:277-279 | for 32-bit values and every power of two below 2^32, shift and mask are quotient and remainder and rebuild the value; multiplication wraps |
| `AmlArgs.RoundDownIsFloor` | include/acpi/acmacros.h:304-305 | the mask removes the remainder, for every word width and power of two |
| `AmlArgs.RoundUpIsCeil` | include/acpi/acmacros.h:307-309 | the result is the least multiple at or above the value iff the sum does not wrap, and zero if it wraps |
| `AmlArgs.RoundUpLargest` | include/acpi/acmacros.h:307-309 | for every word width the largest word rounded up to an even number is zero |
| `Bits.HighMask` | include/acpi/acmacros.h:304-305 | masking with the complement of 2^k - 1 removes the remainder by 2^k |
| `Bits.LowMask` | include/acpi/acmacros.h:279-279 | masking with 2^k - 1 is the remainder by 2^k |
| `Saturate.Cell.Inc` | include/asm_saturate.h:18-18 | the two instructions count up, and all ones stays, on every word |
| `Saturate.Cell.Dec` | include/asm_saturate.h:19-19 | the four instructions count down, and all ones stays, on every word |
| `Saturate.Cell.ShorterDec` | include/asm_saturate.h:21-25 | the three instructions compute the same as the four, on every word |
| `Saturate.Cell.Apply` | include/asm_saturate.h:16-19 | any sequence of changes leaves the counter of that sequence |
| `Saturate.CounterExact` | include/asm_saturate.h:16-19 | over every balanced run the counter is the exact number of references until that first reaches all ones, and all ones from then on |
| `Saturate.ZeroMeansFree` | include/asm_saturate.h:16-19 | the counter reads zero iff no reference remains and it was never saturated |
| `Saturate.CounterTotal` | include/asm_saturate.h:16-19 | on every run, balanced or not: if at each moment releases are covered or the counter has saturated, the counter is the promised value, else it is all ones |
| `Saturate.PromiseKept` | include/asm_saturate.h:16-19 | the counter has the promised value throughout a run iff at each moment of the run no more references were dropped than taken or all ones had been reached |
| `Saturate.UnderflowOnce` | include/asm_saturate.h:19-19 | one release of a count of zero reads all ones where minus one was due |
| `Saturate.UnderflowSticks` | include/asm_saturate.h:16-19 | after one release too many the counter stays at all ones whatever follows |
| `RingBuffers.Ring.Put` | include/ringbuf.h:14-27 | appends unless full; the result tells which |
| `RingBuffers.Ring.Get` | include/ringbuf.h:29-42 | takes the oldest character, sign-extended, or -1 if empty |
| `RingBuffers.Ring.Empty` | include/ringbuf.h:44-47 | true iff nothing is in the ring |
| `RingBuffers.Ring.Full` | include/ringbuf.h:49-52 | true iff the ring holds as many characters as its size |
| `RingBuffers.Ring.constructor` | include/ringbuf.h:54-64 | an empty ring of the given size |
| `RingBuffers.Ring.IndexLaw` | include/ringbuf.h:14-42 | the write index is the read index plus the fill count modulo the size, across all wrap-arounds |
| `RingBuffers.Ring.Run` | include/ringbuf.h:14-42 | any sequence of puts and gets returns what a bounded queue returns and holds what it holds |
| `RingBuffers.RunConserves` | include/ringbuf.h:14-42 | over every run the characters given out followed by those inside are the initial ones followed by those accepted, in order |
| `RingBuffers.PutsTellTruth` | include/ringbuf.h:14-27 | over every run the characters taken in are those of the puts that returned 0, and a put returns 0 if the ring is not full and -1 if it is |
| `RingBuffers.CallerSeesAll` | include/ringbuf.h:29-42 | for a given ring: a caller who takes -1 for empty sees all characters, however many of the waiting ones are fetched, iff no -1 was inside at the start or taken in |
| `RingBuffers.SafeToUse` | include/ringbuf.h:14-42 | operations on a new ring are safe for such a caller, for every ring size and any number of gets to follow, iff none of them puts -1 |
| `RingBuffers.MisledOnce` | include/ringbuf.h:14-42 | one byte 0xFF through a one-byte ring is given out and not seen |

## Left out

- Tetris window creation, pixel geometry, colours, key events and the event thread: user interface; a drawing call is modelled as lighting or darkening a cell, key counters as input.
- Races between the event thread and the game loop on the key counters.
- `queue_remove_last`: its last statement uses a name the macro does not define, so there is no settled behaviour.
- Queues.Assign: an empty source is not modelled, because there the macro writes through the head as if it were an element.
- The packet loop of the name service and its string comparison: network I/O around field checks.
- Interrupted or concurrent use of the saturating count: the sequences carry no lock prefix; runs here are sequential.
- RingBuffers.Ring.constructor: negative sizes and a failing allocation are not modelled.
- Virtqueue descriptors and ring contents: the header gives only their layout.
- ACPICA apart from argument packing and power-of-two arithmetic: prototypes, constants and tables.
- Scheduler, threads, synchronisation, disks, paging, the virtual machine and its libraries: not part of this model.
