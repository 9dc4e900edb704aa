# Antagonist / FontaineOS: a verified model

This project models the state machines at the core of the FontaineOS kernel and of
the small engine on top of it, and proves their laws with Dafny 4.11
(`dafny verify dfyconfig.toml`).

| file | what it models |
|---|---|
| Memory, HeapLayout, Heap | the kernel heap: packed headers in byte memory, first fit, splitting, coalescing |
| Tasks, Stacks, Multitasking | the scheduler: `pusha`/`popa`, `context_switch`, the thread ring, stacks taken from the heap |
| Grid, Canvas, Raycast | the DDA ray walk over the voxel map and the columns it draws |
| Math3d, Collision, Voxel | sliding movement; picking, mining and placing voxels |
| Terminal, Console, CStrings, Decimal | the line editor, the text screen, the shell commands, the two decimal converters |
| Tensor, Fontana | the forward pass, the context window, the vocabulary |
| Pages, Particles, FileTable | the page bitmap, the particle ring, the RAM-disk file table |

The kernel's mutable objects are classes whose methods follow the code statement by
statement over arrays; every method is tied to a value-level step, and the laws over
all runs are lemmas about those steps. The chunk list, the thread ring and the call
histories are ghost state that each class invariant ties to the bytes.

How the parts rest on each other:

* Heap. `KernelHeap` keeps the list threaded through memory equal to a ghost list that
  tiles the arena with no two free neighbours. `HeapLayout.Canonical` shows that such a
  list is determined by its live blocks alone; that `kfree` undoes `kmalloc`, and that
  freeing everything restores the initial chunk, are consequences.
* Scheduler. `Processor` executes `context_switch` instruction by instruction. `Kernel`
  shows that `switch_task`, `create_thread`, interrupts, arbitrary thread code and heap
  calls are exactly the steps of `Tasks`, which carry the whole contents of every
  suspended stack from the saved esp to its top; control blocks and stacks are disjoint
  because they are distinct live heap blocks. PUSHA/POPA order is that of the Intel 64 and IA-32
  Architectures Software Developer's Manual, volume 2, section 4.3.
* Ray walk. The walk visits the cells of the ray in the order the ray meets them: cell k
  is met over the whole interval [t(k), t(k + 1)], step k crosses the first gridline the
  ray reaches (the horizontal one on a tie) exactly at t(k + 1), and the intervals abut.
  So no wall is skipped, and hit, cell, face and distance are determined by map and ray.

## Where the code differs from what is said about it

* The header is packed and has 9 bytes (`Heap.HeaderIsPacked`); the comment at
  kernel/heap.cpp:72 says 12.
* `kfree` may merge chunks anywhere in the list, not only next to the freed one; since
  the list never holds two free neighbours this makes no difference.
* `(int)` truncates toward zero, so cell 0 of the map covers coordinates from -1 to 1.
* A backspace on an empty line is stored and shown like any character
  (kernel/keyboard.cpp:275-282; `Terminal.BackspaceAlone`).
* A file's size is right if and only if its content has at most 63 characters; a longer
  one is recorded as 64 with 63 stored (`FileTable.SizeIsRight`, src/vfat.cpp:55-63).
* Movement is not safe at every speed. A move d along one axis can end in a wall if and
  only if 0.8 < d < 16 or 0.8 < -d < 15 (`Collision.SpeedLimit`), and can leave the
  player's empty region if and only if 0.8 < |d| < 16.8 (`Collision.ComponentLimit`).
* A ray from a coordinate in (-1, 0), which counts as cell 0, that points further out
  stops at the gridline behind it with a negative distance, which the renderer clamps (`Raycast.SignOfDistance`).
* A placed block goes back along the view only under the exact condition of
  `Voxel.PlacesInFront`; near a corner it can go beside the struck block instead
  (`Voxel.PlacesBeside`), although src/modification.cpp:33-37 promises a step backwards.
* `get_shell_command` never returns a command: nothing sets `command_ready_flag` to 1
  (`Console.Keyboard.GetShellCommand`).
* A mapped word is found again only if it has at most 15 characters and no smaller id
  holds it; `Fontana.MappedWordIsFound` states this in both directions and
  `Fontana.LostWords` gives two words that are lost.
* The `1e30f` stand-in for a zero ray component is right exactly when it does not win
  the comparison (`Raycast.ZeroAxisStep`); `Raycast.ColumnRaySteerable` shows that it
  never does for the renderer's rays when positions stay 2^-24 short of the next
  gridline, as binary32 coordinates below 16 do.

## Assumptions

* The heap arena has whole pages, starts above address 0 and ends below 2^32;
  `kfree` gets null or a live block.
* The boot stack lies outside the heap. The running thread has room for a switch
  (44 bytes) or for an interrupt frame and its handler when one is taken.
* Interrupt handlers store only to their stack and to kernel data outside heap and boot stack.
* Ray starts lie in a cell of the 16 x 16 grid, by the code's truncation.
* A particle's lifespan is an int above -2^31, so that its decrement is defined.
* The page counters shown by `meminfo` are at most 32768; sector 1 of the disk reads
  back what was written.
* Pages given back to the page allocator were handed out; memory is at most 128 MB.

## Model

| member | source | states |
|---|---|---|
| Heap.KernelHeap.constructor | kernel/heap.cpp:11-19 | The arena becomes one free chunk of pages*4096 - 9 bytes, and only its header is written. |
| Heap.KernelHeap.Kmalloc | kernel/heap.cpp:25-64 | Takes the lowest-addressed free chunk that fits, splitting it exactly when header plus 8 bytes remain, or returns null with nothing changed; the list stays tiled and free of free neighbours, and no live payload and no byte outside the arena changes. |
| Heap.KernelHeap.Kfree | kernel/heap.cpp:69-95 | Exactly the block at the pointer stops being live, all free neighbours are merged again, and the payload of every remaining block is untouched. |
| Heap.KernelHeap.Coalesce | kernel/heap.cpp:84-94 | From any tiled list with stray free neighbours, the walk restores the full invariant and keeps the live blocks and their payloads. |
| Heap.Reserve | kernel/heap.cpp:38-54 | The header writes of a grant, with all sums taken modulo 2^32: they stay inside the chosen chunk and leave one or two well-formed headers. |
| Heap.HeaderIsPacked | include/kernel/heap.h:11-15 | Size, flag and link fill the bytes from the chunk's address to its payload exactly. |
| Heap.SplitLaw | kernel/heap.cpp:38-54 | A chunk is split exactly if 17 bytes or more are left over; then the block has just the size asked for and the one new free chunk has at least 8 bytes, otherwise the whole chunk is granted. |
| HeapLayout.Canonical | kernel/heap.cpp:25-95 | Two well-formed lists over one arena with the same live blocks are equal: the heap keeps nothing of its history. |
| HeapLayout.FreeUndoesAlloc | kernel/heap.cpp:38-94 | From any well-formed list, freeing the block just returned restores the list exactly, split or not. |
| HeapLayout.LiveIsOutstanding | kernel/heap.cpp:25-95 | Over every run of calls the live pointers are exactly those returned and not yet freed. |
| HeapLayout.Drained | kernel/heap.cpp:77-94 | Every run that has freed all it was given, in any order, ends with the single initial chunk. |
| HeapLayout.FailsOnlyWhenFull | kernel/heap.cpp:28-63 | kmalloc(n) returns null exactly when no run of adjacent free chunks, merged, has n payload bytes. |
| HeapLayout.GrantIsLowest | kernel/heap.cpp:28-31 | No free chunk below the granted one could have served the request. |
| HeapLayout.GrantIsFresh | kernel/heap.cpp:30-58 | A granted block has between n and n + 16 bytes and overlaps no block that was live before. |
| HeapLayout.Conservation | kernel/heap.cpp:16-95 | Headers and payloads always add up to the arena, and live blocks are pairwise disjoint. |
| HeapLayout.Ordered | kernel/heap.cpp:44-50 | The list is in strict address order, hence acyclic, and stays within the arena. |
| Stacks.Processor.Pusha | kernel/boot.s:109 | Pushes the eight registers in the architectural order with the original esp, and writes nothing else. |
| Stacks.Processor.ContextSwitch | kernel/boot.s:106-113 | Parks the caller's registers and return address below its esp, stores that esp in the slot, and loads all registers, esp and eip from the new frame; no other byte changes. |
| Stacks.Processor.TakeInterrupt | kernel/boot.s:68-89 | Whatever the handler does to the registers and to the stack below, the interrupted processor state is restored exactly; outside the frame memory changes by the handler's own stores alone. |
| Multitasking.Kernel.constructor | kernel/task.cpp:21-31 | The boot timeline becomes the only thread, with its control block in the heap and its stack and all live payloads untouched. |
| Multitasking.Kernel.SwitchTask | kernel/task.cpp:113-139 | One switch on byte memory is one Switch step with interrupts masked; only the 44 bytes below esp and the esp field of the running thread's block change, so no other thread's stack and no other live block does. |
| Multitasking.Kernel.CreateThread | kernel/task.cpp:53-92 | Makes the two kmallocs and succeeds if and only if both do; then it is one Create step: block and stack are the two granted, hence fresh, heap blocks, the stack holds the fabricated first frame, the thread has the next id and is linked behind the head, and of all that was live before only the head's link changes. |
| Multitasking.CreationOutcome | kernel/task.cpp:54-61 | Both kmallocs succeed if and only if the first free chunk that fits the control block leaves room for the stack or another free chunk has it. |
| Multitasking.BootLeavesRoom | kernel/task.cpp:21-31 | After start-up on a fresh heap of two pages or more, a thread can be created. |
| Multitasking.BuildStack | kernel/task.cpp:69-87 | The fabricated image is eight zero words with the bootstrap address at the top of the stack. |
| Multitasking.TcbFields | include/kernel/task.h:10-24 | Id, esp and entry fill the first 12 bytes of a control block and the link the last 4 of 52. |
| Multitasking.Kernel.Interrupt | kernel/boot.s:68-89 | An interrupt taken with IF set leaves ring, frames, stacks, heap and processor as they were; memory outside its frame changes by the handler's stores to kernel data alone. |
| Multitasking.Kernel.Execute | kernel/task.cpp:39-47 | Thread code that spares headers, control blocks and other stacks keeps every suspended thread intact. |
| Multitasking.Kernel.Allocate | kernel/heap.cpp:25-64 | A kmalloc by anyone takes the first chunk that fits, null only when none does; it keeps ring, frames, stacks and live payloads, and the new block shares no byte with anything owned before. |
| Multitasking.Kernel.Release | kernel/heap.cpp:69-95 | A kfree of a block that is no thread's keeps ring, frames, stacks and all other payloads. |
| Multitasking.Kernel.ThreadBootstrap | kernel/task.cpp:39-43 | A bootstrapping thread runs with interrupts on and calls exactly the entry it was created with, unless that is null. |
| Multitasking.Kernel.GetThreadCount | kernel/task.cpp:97-106 | The walk around the ring terminates and returns the number of threads. |
| Multitasking.OwnWritesSpareOthers | kernel/task.cpp:113-139 | Writes to the running thread's stack and esp field reach no byte of another thread. |
| Multitasking.OwnWritesSpareBystanders | kernel/task.cpp:113-139 | Writes to the running thread's stack and esp field reach no live heap block that is no thread's. |
| Multitasking.HandedOver | kernel/boot.s:106-113 | After a hand-over the caller's frame, its two arguments and its old stack lie one above the other, the callee's stack is as it was, and nothing else changed. |
| Multitasking.DataStoresSpareThreads | kernel/boot.s:68-89 | A handler's stores to kernel data reach no stack, control block, heap header or live block. |
| Tasks.ContextPreserved | kernel/task.cpp:113-139 | Over every run in which a suspended thread does not run, its stack stays intact from the saved esp to the top, and the step that runs it loads exactly that frame and stack. |
| Tasks.SwitchReturns | kernel/boot.s:106-113 | A thread that calls switch_task gets ebx, esi, edi, ebp, its return point and every byte of its stack back, however many steps later. |
| Tasks.FirstResume | kernel/task.cpp:69-87 | A new thread first runs in thread_bootstrap with zeroed registers, esp at its stack top, an empty stack and interrupts on. |
| Tasks.RunExtends | kernel/task.cpp:53-139 | Every legal create, switch or computation leads to a well-formed system again, so any run can go on. |
| Tasks.RingShape | kernel/task.cpp:89-91 | After any run the ring is the head, the created threads newest first, then the old ring in its old order, so it has grown by one per creation. |
| Tasks.Fairness | kernel/task.cpp:113-139 | A thread at distance d runs after exactly d switches if nothing is created; every creation delays it by at most one. |
| Raycast.Dda | src/raycast.cpp:57-114 | The walk terminates and reports where the ray's sequence of cells first meets a solid or off-map one: the cell, the face crossed, and the unclamped distance at which the ray enters it. |
| Raycast.Extended | src/raycast.cpp:88-109 | One step of the loop is one crossing of the ray, into a cell to go on from or into the one that is reported. |
| Raycast.StepCrosses | src/raycast.cpp:88-98 | The ray is in the current cell up to the first gridline ahead, leaves it there (a tie by the horizontal one) into the next cell, and was never in that one before. |
| Raycast.IntervalOf | src/raycast.cpp:88-98 | The parameter intervals of the visited cells abut: every ray point up to the stop lies in the cell of its interval. |
| Raycast.WalkUnique | src/raycast.cpp:57-109 | One map and one ray allow one sequence of cells and crossing parameters. |
| Raycast.ReportUnique | src/raycast.cpp:57-114 | Hit, cell, face and distance are determined by map and ray. |
| Raycast.SignOfDistance | src/raycast.cpp:72-115 | The distance is negative if and only if the ray leads further out from a start in (-1, 0), and then nothing is hit. |
| Raycast.NoWallSkipped | src/raycast.cpp:88-109 | Before the reported distance the ray is inside no solid cell and never off the map, the untested start cell aside. |
| Raycast.BetweenLines | src/raycast.cpp:72-98 | Between the parameters of two consecutive gridlines the ray is in the column between them. |
| Raycast.ZeroAxisStep | src/raycast.cpp:62-63 | With one zero component, the step taken leads to a cell the ray meets if and only if the sentinel distance does not win. |
| Raycast.ColumnRaySteerable | src/raycast.cpp:50-54 | For every screen column and binary32-like position the sentinel never wins inside the map. |
| Raycast.Fan | src/raycast.cpp:50-54 | Column 0 looks with dy = -1, each further column with 1/400 more, column 400 along x, and dx is (1 - dy)(1 + dy). |
| Raycast.FanTurns | src/raycast.cpp:50-54 | Columns further right look further towards positive y. |
| Raycast.StripHeight | src/raycast.cpp:115-124 | Twice the half height times the clamped distance is at most 600 and more than 600 minus two distances; the lit rows are those within the half height of row 300. |
| Raycast.ShadeOfFace | src/raycast.cpp:126-130 | Walls entered through a vertical gridline are gold, through a horizontal one dark. |
| Raycast.RenderVoxelWorld | src/raycast.cpp:43-137 | Every column shows the clipped strip for the wall its ray reports, in the colour of the struck face, and no other pixel changes. |
| Raycast.ColumnUnique | src/raycast.cpp:111-130 | Height and colour of a column are determined by map and ray. |
| Raycast.NearerIsTaller | src/raycast.cpp:115-124 | A nearer wall lights every row a farther one lights. |
| Collision.CheckWallCollision | src/collision.cpp:11-21 | True exactly for coordinates outside the open square from -1 to 16 or with a positive byte in the map. |
| Grid.SolidByte | src/collision.cpp:20 | Cell (x, y) is solid if and only if byte 16 y + x of the map is positive. |
| Grid.TruncIs | src/collision.cpp:12-13 | The coordinates of column m: [m, m + 1) for positive m, (-1, 1) for 0, (m - 1, m] for negative m. |
| Collision.ApplyAabbClipping | src/collision.cpp:28-63 | The conditional updates compute the axis-by-axis slide. |
| Collision.SlidesXThenY | src/collision.cpp:32-57 | A move is the move along x followed by the move along y from where that ended. |
| Collision.OneAxisReaches | src/collision.cpp:35-57 | A move along one axis reaches its target if and only if the point 0.2 ahead of it is in an empty cell; otherwise nothing moves. |
| Collision.CornerSlidesAlongX | src/collision.cpp:32-57 | At an outer corner a diagonal move slides along x. |
| Collision.AxisMove | src/collision.cpp:35-43 | A slow move along one axis ends in the old or in the probed cell, and these are equal or adjacent. |
| Collision.AxisSafe | src/collision.cpp:35-43 | A move of a length that does not tunnel, its probe on the map, ends in the old or in the probed cell. |
| Collision.NoTunnelling | src/collision.cpp:28-63 | Over every run of moves of at most 0.8 (or at least 16.8) per axis from an empty cell, the centre stays in empty in-grid cells of one 4-connected component. |
| Collision.NeverInWall | src/collision.cpp:28-63 | Over every run of moves that do not tunnel, the centre stays in empty in-grid cells. |
| Collision.SpeedLimit | src/collision.cpp:28-63 | From every empty cell of every map a move ends in an empty cell if and only if neither component d has 0.8 < d < 16 or 0.8 < -d < 15. |
| Collision.ComponentLimit | src/collision.cpp:28-63 | From every empty cell of every map a move stays in the component if and only if each component has at most 0.8 or at least 16.8 in size. |
| Voxel.TraceSelectionRay | src/selection.cpp:11-65 | The sampling loop returns the first in-bounds solid sample of 80, and the face rule's axis for it, or no hit. |
| Voxel.ViewLength | src/selection.cpp:16-17 | The view direction has length 1 up to the fourth power of the angle over 4. |
| Voxel.SampleOnRay | src/selection.cpp:24-28 | Sample k lies k * 0.05 along the view direction, sample 80 at 4 units. |
| Voxel.FaceIs | src/selection.cpp:49-58 | A y face is reported exactly for a hit within 0.05 of a horizontal gridline and not that near a vertical one. |
| Voxel.FirstStop | src/selection.cpp:24-61 | The stop is the least sample that is solid or off the map; all before it are open. |
| Voxel.ExecuteVoxelMutation | src/modification.cpp:11-52 | The in-place edit of the flat map is the edit of the selected cell. |
| Voxel.DestroyAdvances | src/modification.cpp:21-23 | Destroying the block in view moves the next hit to a strictly later sample. |
| Voxel.MiningProgresses | src/modification.cpp:11-23 | After n destroys from one pose a remaining hit lies beyond sample n. |
| Voxel.MiningClears | src/modification.cpp:11-23 | 80 destroys clear the ray, after which destroying changes nothing. |
| Voxel.MiningCount | src/modification.cpp:11-23 | After n destroys from one pose a block is still in view if and only if n is below the number of distinct solid cells the samples meet before leaving the map. |
| Voxel.PlacementIsLocal | src/modification.cpp:26-51 | A placement changes nothing or fills one empty in-bounds cell 4-adjacent to the block that was struck, which is solid. |
| Voxel.PlacesBack | src/modification.cpp:38-50 | From any pose, the block fills the cell the ray came from if and only if it entered through a vertical gridline and an x face was reported, or through a horizontal one and a y face. |
| Voxel.PlacesInFront | src/modification.cpp:38-50 | Within 1 radian: always after a vertical gridline; after a horizontal one if and only if the hit is not within 0.05 of a vertical one. |
| Voxel.PlacesBeside | src/modification.cpp:38-50 | From (1, 0.98) at angle 1 with only (1, 1) solid the block goes to (0, 1), although the ray came from (1, 0). |
| Voxel.OtherActionsDoNothing | src/modification.cpp:16-26 | Without a hit, or for an action other than 0 and 1, the map stays as it is. |
| Voxel.StaysBinary | src/modification.cpp:11-52 | A 0/1 map stays 0/1 under every sequence of edits from any poses. |
| Decimal.UintToDec | kernel/keyboard.cpp:120-133 | Writes the canonical numeral and a NUL, at most 11 bytes, without overrunning the 10-byte scratch. |
| Decimal.UintToString | src/main.cpp:68-85 | Writes the very same numeral. |
| Decimal.RoundTrip | kernel/keyboard.cpp:120-133 | Numerals have no leading zero and read back as the number. |
| Decimal.CanonicalUnique | kernel/keyboard.cpp:120-133 | Every canonical numeral is the numeral of the number it denotes. |
| Decimal.WordDigits | kernel/keyboard.cpp:121 | A 32-bit value has at most 10 digits. |
| Console.StringsEqual | kernel/keyboard.cpp:10-19 | True exactly for equal NUL-terminated texts. |
| Console.AppendStr | kernel/keyboard.cpp:138-147 | Appends the text, cut at byte 159, and terminates it. |
| Console.Keyboard.ScrollScreen | kernel/keyboard.cpp:78-96 | Past the last row every row moves up by one, the last is blanked, and the cursor goes to its start. |
| Terminal.ScrollMoves | kernel/keyboard.cpp:81-92 | A scroll moves every byte up by 160 and blanks the last 160 bytes in gray. |
| Console.Keyboard.ShellPrintLine | kernel/keyboard.cpp:103-114 | The text appears at the cursor in its colour and the cursor moves to the next row, scrolling if needed. |
| Console.Keyboard.DiskTest | kernel/keyboard.cpp:234-267 | What is shown is what was written to the sector and read back. |
| Console.Keyboard.KeyboardHandler | kernel/keyboard.cpp:149-292 | One scancode on the buffers is one Press step of the terminal and one update of the key matrix, with every video write inside the 4000 bytes; it is acknowledged once or twice and leaves the command flag at 0. |
| Terminal.Layout | kernel/keyboard.cpp:46-51 | The four keyboard rows and the keys beside them, and no character for any other scancode. |
| Terminal.TypedText | kernel/keyboard.cpp:282-290 | Over every run of character keys that fits, the line grows by exactly their characters and the cursor by two bytes each. |
| Terminal.TypedIsAnswered | kernel/keyboard.cpp:176-290 | Enter after such a run shows the typed text and below it the reply to exactly that text. |
| Terminal.HelpIsHelped | kernel/keyboard.cpp:186-189 | The keys h, e, l, p and Enter bring up the help text. |
| Terminal.FullLineStands | kernel/keyboard.cpp:282 | A line of 63 characters takes no more. |
| Terminal.BackspaceUndoes | kernel/keyboard.cpp:275-290 | Backspace after a character restores line and cursor and blanks its cell, and no other cell changes. |
| Terminal.PromptPlace | kernel/keyboard.cpp:149-292 | A coupled prompt starts at a multiple of 160 from 1600 to 3840 and shows its line, of at most 63 characters, from there. |
| Terminal.Answers | kernel/keyboard.cpp:186-271 | Each command has its own answer and colour, everything else is refused. |
| Terminal.MeminfoNumbers | kernel/keyboard.cpp:205-225 | The numerals of a meminfo reply read back as pages used, pages in all, free KB and threads. |
| Terminal.UptimeNumbers | kernel/keyboard.cpp:190-204 | The numerals of an uptime reply read back as seconds of 100 ticks and as ticks. |
| Console.Keyboard.GetShellCommand | kernel/keyboard.cpp:58-63 | Never finds a command, in any state the keyboard can reach. |
| Terminal.HeldIsDown | kernel/keyboard.cpp:157-171 | After any scancodes a key is marked exactly if its last scancode was a press; the upper half of the matrix stays 0. |
| Terminal.Pressed | kernel/keyboard.cpp:149-292 | Over every sequence of scancodes the prompt row shows exactly the edited line, the cursor stands right behind it, and the row starts at a multiple of 160 from 1600 to 3840. |
| Terminal.PressKeepsCoupled | kernel/keyboard.cpp:149-292 | Each scancode keeps line, cursor and screen coupled. |
| Terminal.EnterShowsReply | kernel/keyboard.cpp:176-274 | After Enter the reply stands directly above the new empty prompt and the typed line above the reply, also across a scroll. |
| Terminal.EditsStayInRow | kernel/keyboard.cpp:275-290 | Typing and erasing change nothing outside the prompt row. |
| Terminal.BackspaceAlone | kernel/keyboard.cpp:275-290 | Backspace shortens the line if and only if it is not empty; on an empty one it is typed and shown. |
| Terminal.ScreenIsTranscript | kernel/keyboard.cpp:149-292 | Over every key sequence from an empty prompt on a cleared screen, the full rows above the prompt are the newest rows of the list of typed lines and replies, across any number of scrolls, and the prompt moves down one row each until the last. |
| Terminal.ClearStartsOver | kernel/keyboard.cpp:226-233 | Whatever the screen showed, clear leaves an empty prompt at 1600 on a screen blanked in gray from there, with an empty transcript. |
| Terminal.ReplyFits | kernel/keyboard.cpp:186-271 | Every reply has at most 79 characters. |
| Tensor.EvaluateForward | src/tensor.cpp:36-78 | Whatever earlier calls left, each output is a fixed fold iterated as often as its token occurs; null pointers change nothing. |
| Tensor.OrderFree | src/tensor.cpp:42-52 | Contexts with the same multiset of tokens give the same output for any addition and weights. |
| Tensor.RealActivation | src/tensor.cpp:68-71 | Over the reals the activation of v after n occurrences is n * 0.001 * (64 v + 2016). |
| Fontana.Tokenizer.Push | src/tokenizer.cpp:57-77 | The buffer is always the last 32 tokens pushed, in order, zero-padded while filling. |
| Fontana.OldTokensForgotten | src/tokenizer.cpp:57-77 | The forward pass depends on the last 32 tokens as a multiset and on nothing older. |
| Fontana.Vocabulary.AddMapping | src/vocab.cpp:37-43 | The table always holds the first 15 characters of the latest mapping of each id; null strings and bad ids change nothing. |
| Fontana.Vocabulary.Tokenize | src/tokenizer.cpp:37-51 | Returns the least id holding the word, 255 if none does, 0 for null or empty. |
| Fontana.MappedWordIsFound | src/tokenizer.cpp:37-51 | A mapped word comes back under its id if and only if it is kept whole and no smaller id holds it (or it is too long and the id is 255). |
| Fontana.LostWords | src/vocab.cpp:37-43 | A 16-character word comes back as 255, and a word also mapped to id 0 comes back as 0. |
| CStrings.CopyRow | src/vocab.cpp:15-22 | The bounded copy keeps as much of the text as leaves room for the NUL, and changes no byte behind it and no other row. |
| Pages.PageAllocator.AllocPage | kernel/pmm.cpp:69-79 | Returns the lowest page neither reserved nor held and holds it; null exactly when every page is in use. |
| Pages.PageAllocator.FreePage | kernel/pmm.cpp:84-88 | Exactly the page given back stops being held. |
| Pages.PageAllocator.GetUsedPages | kernel/pmm.cpp:100-108 | The count is the reserved pages that exist plus the held pages. |
| Pages.PageAllocator.constructor | kernel/pmm.cpp:44-62 | After start-up exactly the first 512 pages are in use. |
| Pages.ReservedPlusHeld | kernel/pmm.cpp:100-108 | Counting marked pages counts each reserved and each held page once. |
| Pages.MarkedBit | kernel/pmm.cpp:17-39 | A page's mark is bit page % 8, from the low end, of byte page / 8. |
| Particles.ParticleSystem.SpawnParticle | src/particle.cpp:26-37 | Every slot keeps describing the latest spawn whose index falls on it. |
| Particles.ParticleSystem.UpdateAndRender | src/particle.cpp:44-83 | A slot is active for max(lifespan, 1) updates after its spawn and stands at pos + t * vel meanwhile; every pixel shows the topmost active particle covering it, or what it showed before. |
| Particles.TopmostIs | src/particle.cpp:68-81 | A pixel shows the covering particle of the highest slot, and the background if there is none. |
| Particles.Projection | src/particle.cpp:68-72 | The origin is drawn at the centre of the screen and a unit of y or z is 40 pixels to the right or down. |
| Particles.FourPixels | src/particle.cpp:75-81 | An active particle covers exactly the four pixels of its block, or none if one is off the screen. |
| Canvas.PutPixel | src/buffer.cpp:26-34 | Sets exactly the addressed pixel, and nothing when it lies off the screen. |
| Canvas.RowMajor | src/buffer.cpp:33 | Pixels lie row after row, each from left to right. |
| Particles.LatestIsRecent | src/particle.cpp:27-36 | The spawn a slot holds is one of the last 128. |
| FileTable.VRamDisk.CreateVirtualFile | src/vfat.cpp:39-66 | The table is always the first eight creates in order; the 12- and 64-byte buffers hold names cut at 11 and contents at 63 characters, sizes count up to 64. |
| FileTable.SizeIsRight | src/vfat.cpp:55-63 | The recorded size is the number of characters stored if and only if the content has at most 63. |
| FileTable.VRamDisk.GetVirtualFileName | src/vfat.cpp:71-82 | Lookup k is the name of the folder's k-th create, none beyond its count. |
| FileTable.VRamDisk.GetVirtualFileContent | src/vfat.cpp:87-98 | Lookup k is the content of that same file. |
| FileTable.VRamDisk.GetFolderFileCount | src/vfat.cpp:103-111 | The number of files stored for the folder. |
| FileTable.FoldersPartition | src/vfat.cpp:103-111 | Over any list of distinct folders covering all owners the counts add up to the number of files. |

## Left out

- Port I/O other than the count of keyboard acknowledgements, interrupt-controller and timer programming, ATA polling, video modes, GDT, IDT and page tables: device plumbing and constant fills.
- The dashboard loop, fonts, palette, hotbar, spatial cells, math3d, procedural terrain, persistence, weights and the binary loader: weaker than what is modelled.
- src/threads.cpp: it rotates an index; the real switch is in kernel/task.cpp.
- IEEE rounding: geometry and particles are over the reals, the tensor pass over an abstract addition.
- Multitasking.Kernel.CreateThread: does not model the write through a null pointer that follows a failed kmalloc; the model stops there and reports it. The id, entry, esp and link fields are written together after the stack image, and no interrupt is taken inside the method.
- Thread code that writes control blocks, heap headers or foreign stacks is outside the model; each step of thread code stores one byte.
- The loop in which a thread whose entry has returned yields for ever (kernel/task.cpp:44-46): a sequence of switches.
- Rays whose zero component's sentinel distance wins a comparison, and rays from outside the grid, have no walk theorem; the distance clamp at 0.1 belongs to the drawing of a column.
- A clearance of the player's full radius: the code tests one leading point per axis and promises none. The movement laws are about the centre.
- The "??" that vocabulary lookups of ids past the table return: tokenizing never asks for one.
- Disjointness of heap and allocated pages is not claimed: only the first 2 MB are reserved while the heap starts at 3 MB.
