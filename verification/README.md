# A model of the claudeos kernel's memory manager, and of what rests on it

The project models, in Dafny 4.11, the parts of the kernel where a small mistake
is hardest to see: the four-level translation tables and every change made to
them, the address space's lock and what waits for an invalidation under it,
copy-on-write and fork, demand faults against unmaps, the record of regions, the
ELF loader, the kernel heap, the frame allocator and the boot map it is built
from, the telnet console's wire, wait queues and futexes, the end of a process,
round-robin scheduling, real interval timers and civil dates.

`dafny verify dfyconfig.toml` checks all of it.

## How it is put together

- `Machines` is the descriptor half of the kernel's `Machine` interface as a
  record of functions, with the laws the walk relies on. The x86-64 and AArch64
  encodings are shown to obey them bit by bit.
- `Walk`, `Pages`, `Hierarchy`, `Descent` and `Reclaim` are the theory of a
  hierarchy of tables in a flat memory of frames. A position is the path of
  descriptor indices to it, `TableAt` is the hardware's walk, a hierarchy is a
  `Tree` when no table is reached along two paths, and `PageMap` is the finite
  map from page to descriptor that the hierarchy stands for.
- `Tables` is the kernel's `Tables`, `Tlb` and `TableStock` as classes. Its ghost
  field `cached` is everything a hardware walker can have kept, with whether it may
  be stored through. `Tables.Release` takes a reference away from a frame only when
  nothing cached names the frame, or when what does is still so and other references
  are left; that its callers verify is the proof that invalidation comes first.
- `Accounts` counts the descriptors that name a frame, tables and pages alike, and
  says what each change of the tables does to that number. `Guard` is `MmGuard`,
  `Ownership` is `Prepared`, and every one of their methods conserves the balance of
  references against descriptors and frames in hand. `Share`, `Fork`, `Cow` and
  `Teardown` are the operations that reach across two hierarchies or a whole one.
- `Spaces` is a machine of any number of address spaces, one hold of a lock per
  step, whose runs are all interleavings.
- `Worlds` is one memory with any number of hierarchies in it, each with its cache,
  its pending invalidation and its retired frames, and what they come to as a state
  of `Spaces`. `Moves` is what each call does to a world, in the terms of the
  methods' own contracts. `Refinement` shows that each move is one or two steps of
  `Spaces`, `Runs` draws the conclusions over every run of moves, and `Calls` shows
  that the methods, called in a consistent world, make those moves.
- `Permissions` is the flags the kernel asks for and what a descriptor grants a
  program, on both machines, and `Protection` is a program's own change of protection
  in any state of `Spaces`.
- `Regions` and `Faults` are the record and the fault protocol, `Elf` the loader.
- `Heap`, `Frames` and `Boot` are the allocators. `Heap` keeps its list as nodes
  in the free memory itself. `Pool` is every run of calls of the frame allocator,
  from what the boot left.
- `Telnet` and `Console` are the two codecs, the output queue and the kernel log.
  `Messages` is the machine of messages pushed, printed and sent, in any order.
- `WaitQueues`, `Futexes`, `Processes`, `RoundRobin`, `Timers` and `Civil` are
  the rest.

Where the source changes things in place the model is a class, or a method with
the source's loops, proved against a function or predicate on values. The claims
about all inputs, all runs or all interleavings are lemmas about those functions.

Points where the code and its comments differ, or that shaped a contract:

- AArch64's `flags` gives back hardware bits together with the ones asked for, so
  reading flags does not give the very word that was asked for. The law used is
  that a leaf made from what was read is the leaf that was read.
- `free_table` asks `ends_walk` about a level one higher than the descriptor it
  holds. `Teardown.LevelBlind` says that the answer is the same at every level
  above the last, and `BothLevelBlind` shows it of both machines.
- A publish refused for want of tables may already have linked some and widened
  others, so `Published` says that no translation changed and every frame is
  accounted for, rather than that nothing was written.
- The user half holds no blocks. This is a precondition (`Blockless`) where an
  operation relies on it, and is kept by every change.
- One address space names a frame at most once (`Guard.Apart`). It is a precondition
  of the guard's methods, and `Worlds.NamedOnce` shows it of every space of every
  consistent world.
- A change of protection keeps the share mark of a page that has one, and the
  comments rely on that alone. A page that was read-only when it was shared has no
  mark, and giving it write permission while another space still maps its frame
  makes the frame writable there (`Protection.MprotectCanUndoSharing`).
  `Protection.MprotectIsolates` is the exact condition under which the call does not,
  and runs allow a change of protection under that condition.
- The same call, taking write permission from a page that is marked, leaves the mark,
  and a store breaks the share and is made. `Protection.MprotectGrants` says that this
  is the one case in which the page does not get what was asked for, and
  `Protection.MprotectCanBeForgotten` is a run to it.
- The comments promise that a message is in the log a connection is sent or comes
  live, never neither. Between its push and its print the log can move on or be
  cleared, and then it is in neither (`Messages.LostWhenTheLogMovesOn`,
  `Messages.LostWhenTheLogIsCleared`). `Messages.MessageReaches` is the exact
  condition under which it comes through.
- A reference count stops at 65535 without refusing, so one more sharer than that is
  not counted (`Pool.FullCountFallsShort`).

## Model

| member | source | states |
|---|---|---|
| Machines.X86IsLawful | kernel/src/arch/x86_64/paging.rs:32-86 | the x86-64 encoding obeys every law of the machine interface: a leaf names its frame and reads back as itself, tables and widening keep what they name, sharing takes the hardware's write permission away and leaves a mark, owning puts it back |
| Machines.AArch64IsLawful | kernel/src/arch/aarch64/paging.rs:63-127 | the AArch64 encoding obeys the same laws, although it keeps write permission as a software bit |
| Pages.IndexOfPage | kernel/src/mm/walk.rs:45-53 | the index the walk takes from an address at each level is that of the address's page, whatever the bits the walk does not read |
| Pages.PathToSame | kernel/src/mm/walk.rs:45-53 | two pages take the same path to a depth exactly when one descriptor at that level covers both |
| Walk.LinkSeen | kernel/src/mm/walk.rs:357-366 | linking a blank frame in at an empty position adds that table and changes no other table and no present descriptor anywhere |
| Walk.UnlinkSeen | kernel/src/mm/walk.rs:537-573 | unlinking a blank table takes that one out and changes nothing else |
| Tables.TableStock.Take | kernel/src/mm/walk.rs:242-249 | frames come off the stock one at a time, last in first out, and nothing comes off an empty one |
| Tables.Tlb.Note | kernel/src/mm/walk.rs:170-176 | the same address again stays one address, and a second one makes it everything |
| Tables.Tables.TableFor | kernel/src/mm/walk.rs:322-338 | the table found is the one the hardware's walk of the address reaches at that level |
| Tables.Tables.MissingTables | kernel/src/mm/walk.rs:385-395 | the count is how many levels the walk to the address lacks |
| Tables.Tables.NextCreating | kernel/src/mm/walk.rs:351-378 | one level of the descent: the table there, widened if need be, or one frame of the stock linked in, or refused with nothing changed |
| Tables.Tables.LeafTableCreating | kernel/src/mm/walk.rs:351-379 | the descent to the last level keeps every translation, takes from the stock exactly the tables it made, and is short only with the stock empty and levels still missing |
| Tables.Tables.Publish | kernel/src/mm/walk.rs:440-461 | done: the page map gains exactly this page and exactly the missing tables were used; refused: no page changes, occupied exactly when the page was mapped, short only when the stock was smaller than what was missing |
| Tables.Tables.Replace | kernel/src/mm/walk.rs:476-486 | the page map changes at this page alone and the old frame comes back, or nothing was mapped and nothing is written |
| Tables.Tables.Protect | kernel/src/mm/walk.rs:490-501 | the page keeps its frame and takes the flags, or nothing was mapped and nothing is written |
| Tables.Tables.TableIsEmpty | kernel/src/mm/walk.rs:581-588 | true exactly when no descriptor of the table is present, though the sweep starts past the one just cleared |
| Tables.Tables.Reclaimable | kernel/src/mm/walk.rs:542-566 | the table below this level is one to take out exactly when it is reached, empty and held by nothing else |
| Tables.Tables.ReclaimLevel | kernel/src/mm/walk.rs:537-573 | that table is taken out, no page changes, nothing becomes readable that was not, and everything cached is to be forgotten |
| Tables.Tables.ReclaimTables | kernel/src/mm/walk.rs:537-573 | takes out the run of emptied tables from the last level up, at most three, changes no page, and leaves no table below the top empty |
| Tables.Tables.Unmap | kernel/src/mm/walk.rs:510-521 | the page map loses exactly this page, its frame is handed back, and the tables taken out are no longer in the hierarchy |
| Tables.Tables.Leaf | kernel/src/mm/walk.rs:398-406 | the descriptor read is the page map's |
| Tables.Tables.FlagsOf | kernel/src/mm/walk.rs:409-411 | the flags are those of the page map's descriptor |
| Tables.Tables.Translate | kernel/src/mm/walk.rs:414-432 | at the last level it reads the page map, above it finds the block that ends the walk, and otherwise the page is not mapped |
| Tables.Tables.Release | kernel/src/mm/walk.rs:118-119 | a reference goes back only when nothing the walker can have kept names the frame, or everything that does is still so and it is not the last |
| Reclaim.UnmapUndoesPublish | kernel/src/mm/walk.rs:440-521 | with stock frames of one reference, unmapping a page published at a fresh address restores the page map and the tables and hands back exactly the frames the publish consumed |
| Reclaim.TablesFollowPages | kernel/src/mm/walk.rs:503-573 | while no table below the root is empty, the tables are exactly the positions on the way to a mapped page |
| Reclaim.SoleAfterGrowth | kernel/src/mm/walk.rs:351-379 | linking tables with one reference each keeps every table below the top at one reference |
| Reclaim.SoleAfterShrink | kernel/src/mm/walk.rs:537-573 | so does taking tables out |
| Accounts.PositionsAreAll | kernel/src/mm/walk.rs:709-741 | the finite set of positions that teardown goes through is every present descriptor of the user half |
| Accounts.NamesSplit | kernel/src/mm/walk.rs:709-741 | a frame is named by as many descriptors as pages are on it, and one more when it is a table below the top |
| Accounts.PublishNames | kernel/src/mm/walk.rs:440-461 | in all three outcomes a publish makes one descriptor more for each table taken and one for the frame when it is done |
| Accounts.RewriteNames | kernel/src/mm/walk.rs:476-501 | replacing or protecting moves one naming from the old frame to the new |
| Accounts.UnmapNames | kernel/src/mm/walk.rs:510-573 | an unmap takes away one naming of the page and one of each table handed back |
| Guard.MmGuard.constructor | kernel/src/mm/space.rs:598-602 | a hold begins with nothing cached but what is so, nothing pending and nothing retired |
| Guard.MmGuard.Flush | kernel/src/mm/space.rs:327-335 | the walker forgets everything that is not so any more, only then does each retired frame lose one reference, and the references balance |
| Guard.MmGuard.Retire | kernel/src/mm/space.rs:338-347 | frames wait for the invalidation, and when the slots are full the ones already waiting are invalidated and released first; the references balance |
| Guard.MmGuard.Publish | kernel/src/mm/space.rs:354-374 | a prepared page goes in and its reference leaves the value exactly when it does; a refusal leaves it there; nothing is left for the walker to forget, and tables, page and value balance |
| Guard.MmGuard.Replace | kernel/src/mm/space.rs:387-399 | the frame replaced is named nowhere, may be retired, and is what the new frame is exchanged for in the balance |
| Guard.MmGuard.Protect | kernel/src/mm/space.rs:409-411 | what the change leaves behind is covered by what is pending |
| Guard.MmGuard.Unmap | kernel/src/mm/space.rs:418-429 | the page is gone from the page map, the frames handed back are named nowhere and are all different, and each is one descriptor fewer |
| Guard.MmGuard.UnmapPage | kernel/src/mm/space.rs:432-440 | one turn of that loop: the page is gone and what named it is retired or released |
| Guard.MmGuard.UnmapRange | kernel/src/mm/space.rs:432-440 | exactly the pages of the range are gone, however often the retired list fills up, and every frame loses as many references as it loses descriptors |
| Ownership.Prepared.TopUp | kernel/src/mm/tables.rs:202-210 | the frames taken are ones nothing was using, each with one reference, and there are enough unless the allocator ran out |
| Ownership.Prepared.Commit | kernel/src/mm/tables.rs:214-217 | the page's reference leaves the value and nothing else does |
| Ownership.Prepared.Uncommit | kernel/src/mm/tables.rs:220-224 | the page's reference is the value's again |
| Ownership.Prepared.GiveBack | kernel/src/mm/tables.rs:226-241 | every frame still held loses exactly one reference and no other frame loses any |
| Share.NextAt | kernel/src/mm/walk.rs:610-620 | the next address is past everything the missing descriptor covers and nothing else |
| Share.NextPopulated | kernel/src/mm/walk.rs:596-623 | the answer is the lowest block at or above the start that has a last-level table, and none means there is none below the limit |
| Share.SharedIsReadOnly | kernel/src/mm/walk.rs:678-688 | sharing keeps the frame and gives both sides one descriptor that the hardware cannot write through |
| Share.StoreMark | kernel/src/mm/walk.rs:678-687 | the parent's map changes at this page alone, to the marked descriptor, and a translation that still allows stores is covered by what is pending |
| Share.MarkParent | kernel/src/mm/walk.rs:668-689 | the reference is taken, the parent's page marked and what that leaves stale covered by what is pending, with the child and its stock untouched |
| Share.PublishShared | kernel/src/mm/walk.rs:690-697 | the child maps the marked descriptor, or the reference goes back |
| Share.ShareFrom | kernel/src/mm/walk.rs:662-698 | both maps hold the same marked descriptor at this page, neither changes elsewhere, the frame gains a reference exactly when the child took the page, and the parent's stale translations stay covered |
| Tables.AllocZeroed | kernel/src/mm/frame.rs:432-436 | a frame nothing was using, zeroed, with one reference, or nothing when every frame is in use |
| Fork.FillStock | kernel/src/mm/space.rs:634-637 | three frames nothing names; or the allocator has run out, with the frames gathered until then accounted for |
| Fork.ShareNext | kernel/src/mm/walk.rs:632-644 | one more page has been shared, and with tables enough in the stock it cannot be refused |
| Fork.ShareRange | kernel/src/mm/walk.rs:632-644 | every page of the range has been shared, and within one block with tables enough none is refused |
| Fork.ShareBlock | kernel/src/mm/space.rs:638-664 | three frames are always enough for one block, however the child's tables stand |
| Fork.Drain | kernel/src/mm/space.rs:665-671 | the frames a block did not use go back and nothing else changes |
| Fork.ShareAll | kernel/src/mm/space.rs:624-674 | every block is shared and none is passed over; false only when the allocator ran out |
| Fork.ForkPages | kernel/src/mm/space.rs:624-677 | with no sibling acting, child and parent end with one page map: the parent's pages on the parent's frames, hardware-writable through neither, and each frame with one reference more for every page on it |
| Cow.TakePageBack | kernel/src/mm/space.rs:826-829 | the last owner's page becomes writable on the frame it was on |
| Cow.CopyFrame | kernel/src/mm/space.rs:834-842 | the spare frame takes the contents and nothing else changes |
| Cow.CopyPage | kernel/src/mm/space.rs:830-856 | the page moves to the spare frame with the contents it had, every other frame that is no table keeps its contents, and the old frame is retired with the balance kept |
| Cow.BreakCow | kernel/src/mm/space.rs:806-857 | each case of the descriptor, the count and the spare frame leaves exactly the page map, the counts, the retired list and the bytes it should, and gives the right answer |
| Cow.BrokeSeen | kernel/src/mm/space.rs:806-857 | of a broken share: the copy has the old bytes, and no frame but the copy and this hierarchy's tables is written |
| Teardown.BothLevelBlind | kernel/src/arch/aarch64/paging.rs:96-98 | on both machines whether a descriptor ends the walk is the same at every level above the last |
| Teardown.Detach | kernel/src/mm/walk.rs:710-717 | the owned descriptors are off the top table, what they were is kept, and the others are as they were |
| Teardown.FreeEntry | kernel/src/mm/walk.rs:728-738 | everything one descriptor reaches is released, each position once, and the descriptor is cleared |
| Teardown.FreeTable | kernel/src/mm/walk.rs:727-741 | every leaf and table at or below this table is released exactly once, and nothing outside it is written |
| Teardown.FreeBelow | kernel/src/mm/walk.rs:709-724 | every user leaf and table is given back exactly once, after the walker has forgotten all of them; a frame loses as many references as descriptors named it; the upper top-level entries and everything outside are unchanged |
| Teardown.DropTables | kernel/src/mm/tables.rs:366-372 | the same, and the top table once |
| Teardown.ReleasedOncePerName | kernel/src/mm/walk.rs:709-741 | a frame loses as many references as positions named it, and no other frame loses any |
| Teardown.ReleasedAllNames | kernel/src/mm/walk.rs:709-741 | where references balance, teardown takes from each frame exactly the references its descriptors held |
| Spaces.StepKeeps | kernel/src/mm/space.rs:806-857 | every hold of a lock keeps each count equal to the descriptors naming the frame, tables included, and the references held elsewhere, tables named once, and every hardware-writable page alone on its frame |
| Spaces.StartKeeps | kernel/src/mm/space.rs:590-596 | the state with no address space has all of these |
| Spaces.ShareKeeps | kernel/src/mm/walk.rs:662-698 | one page of a fork keeps both, whether the child takes the page or refuses it |
| Spaces.BreakKeeps | kernel/src/mm/space.rs:806-857 | breaking a share keeps both in every case |
| Spaces.StepSeen | kernel/src/mm/space.rs:806-857 | no step changes a byte seen at any page of any space that the step is not about |
| Spaces.RunKeeps | kernel/src/mm/walk.rs:647-698 | over every interleaving, a frame named by two mappings is hardware-writable through neither |
| Spaces.RunSeen | kernel/src/mm/space.rs:789-857 | over every interleaving, what a program sees at a page changes only by steps about that page of that space |
| Spaces.BreakCowRepairs | kernel/src/mm/space.rs:806-857 | a true break leaves the page writable, alone on its frame and with the same bytes, and changes no byte anyone sees; a false one happens exactly when nothing is mapped, the page may not be written, or a copy is needed with no frame for it |
| Spaces.FreeIsUnnamed | kernel/src/mm/frame.rs:156-171 | a frame with no reference is named by no page, is no table and is held by nobody |
| Spaces.ProtectIsolates | kernel/src/syscall/mem.rs:286-294 | after a change of protection every writable page is alone on its frame if and only if the page is not made writable or no other mapping is on its frame; with no reference held elsewhere, if and only if the count is one |
| Permissions.BothSpeak | kernel/src/mm/space.rs:84-93 | on both machines a leaf made from the permissions wanted grants exactly those, is writable just when it may be written and carries no mark, and sharing, owning and retagging keep who may come and what may run |
| Protection.SharedGrants | kernel/src/mm/walk.rs:678-688 | sharing a page takes no permission from what its descriptor grants a program |
| Protection.BrokenGrants | kernel/src/mm/space.rs:826-849 | breaking a share gives back what the mark stood for and nothing else |
| Protection.MprotectIsolates | kernel/src/syscall/mem.rs:286-294 | with the flags the call chooses, every writable page is alone on its frame afterwards if and only if the page was marked, is not to be written, or has its frame to itself |
| Protection.MprotectGrants | kernel/src/syscall/mem.rs:286-294 | afterwards the page grants what was asked if and only if it was not marked or is to be written, and a break with a frame to spare lets a store through if and only if it is to be written or was marked |
| Protection.MprotectCanUndoSharing | kernel/src/syscall/mem.rs:286-294 | a run from nothing, of an allocation, a read-only publish and a share, after which asking for write permission leaves one space writing what the other reads |
| Protection.MprotectCanBeForgotten | kernel/src/syscall/mem.rs:286-294 | a run from nothing, with a writable publish, after which write permission taken away does not keep a store from being made |
| Worlds.NamedOnce | kernel/src/mm/space.rs:432-440 | in a consistent world no space names a frame in two places |
| Refinement.PublishIsStep | kernel/src/mm/walk.rs:440-461 | a publish, done, occupied or short, is the publish step on all spaces at once: pages, tables, counts, frames held and bytes |
| Refinement.ReplaceIsStep | kernel/src/mm/walk.rs:476-486 | a replace is its replace step |
| Refinement.ProtectIsStep | kernel/src/mm/walk.rs:490-501 | a change of flags is its protect step |
| Refinement.UnmapIsStep | kernel/src/mm/walk.rs:510-521 | an unmap, with the tables it takes out, is its unmap step |
| Refinement.FlushIsStep | kernel/src/mm/space.rs:327-335 | a flush is its drop step |
| Refinement.GiveIsStep | kernel/src/mm/tables.rs:226-241 | a value dropped is its drop step |
| Refinement.AllocateIsStep | kernel/src/mm/frame.rs:432-436 | an allocation is its alloc step |
| Refinement.FillIsStep | kernel/src/mm/space.rs:889-930 | filling a frame in hand is its fill step |
| Refinement.StoreIsStep | kernel/src/mm/walk.rs:678-688 | a store by a program through a descriptor that allows it is its write step |
| Refinement.BreakIsSteps | kernel/src/mm/space.rs:806-857 | a break of a share is its break step, followed by a drop when the retired list was full, with the same answer |
| Refinement.ShareIsStep | kernel/src/mm/walk.rs:662-698 | sharing a page between two hierarchies, taken, occupied or short, is its share step |
| Refinement.OpenIsStep | kernel/src/mm/tables.rs:313-323 | making an empty hierarchy is its open step |
| Refinement.CloseIsStep | kernel/src/mm/tables.rs:366-372 | dropping a hierarchy is its close step |
| Runs.MoveRefines | kernel/src/mm/space.rs:327-440 | whatever the call, all spaces together go where the run machine's steps lead |
| Runs.MoveKeeps | kernel/src/mm/space.rs:327-440 | every call keeps a world consistent: disjoint trees, balanced references, everything stale pending, and nothing waiting that is named |
| Runs.StartConsistent | kernel/src/mm/space.rs:590-596 | a memory with no address space in it is consistent |
| Runs.RunConsistent | kernel/src/mm/space.rs:327-440 | over every interleaving of calls the world stays consistent |
| Runs.ConsistentIsAccounted | kernel/src/mm/frame.rs:156-179 | a frame's count is the number of descriptors naming it over all hierarchies, tables and pages, the roots, and the references in values, stocks and retired lists |
| Runs.RunAccounted | kernel/src/mm/frame.rs:156-179 | so at every point of every run |
| Runs.NothingCachedIsFree | kernel/src/mm/space.rs:321-347 | in a consistent world no cached entry of any space names a frame without references |
| Runs.RunNeverFreesCached | kernel/src/mm/space.rs:321-347 | so at every point of every run: a frame reaches the allocator only when no space's walker can still get to it |
| Runs.RunIsolated | kernel/src/mm/space.rs:806-857 | over every run, what a program reads at a page changes only by calls about that page of that space |
| Runs.CachedStoresAreAlone | kernel/src/mm/walk.rs:678-688 | with nothing pending, a cached translation that allows stores is to a frame no other page of any space is on |
| Runs.SpaceSole | kernel/src/mm/walk.rs:537-573 | in a consistent world every table below a top has one reference |
| Runs.RunLeavesNoEmptyTable | kernel/src/mm/walk.rs:503-573 | over every run in which no publish into a space runs short of tables, no table below its top is empty |
| Runs.PublishThenUnmap | kernel/src/mm/walk.rs:440-521 | in a consistent world with no empty table, publish and then unmap restores map and tables and hands back exactly what was consumed |
| Calls.AllocCall | kernel/src/mm/frame.rs:432-436 | an allocation makes its move and leaves the world consistent |
| Calls.GiveBackCall | kernel/src/mm/tables.rs:226-241 | dropping a prepared value does |
| Calls.PublishCall | kernel/src/mm/space.rs:354-374 | the guard's publish needs nothing but a consistent world and a page brought to it, and makes the publish move with the same answer |
| Calls.ReplaceCall | kernel/src/mm/space.rs:387-399 | the guard's replace, of a frame in hand, makes the replace move with the same answer |
| Calls.ProtectCall | kernel/src/mm/space.rs:409-411 | a harmless change of flags makes the protect move with the same answer |
| Calls.FlushCall | kernel/src/mm/space.rs:327-335 | a flush makes the flush move of everything that waited |
| Calls.UnmapCall | kernel/src/mm/space.rs:418-440 | unmapping and retiring makes the unmap move, and a flush when the list was full |
| Calls.BreakCall | kernel/src/mm/space.rs:806-857 | breaking a share makes the break move with the same answer |
| Calls.ShareCall | kernel/src/mm/walk.rs:662-698 | sharing one page makes the share move with the same outcome |
| Calls.CloseCall | kernel/src/mm/tables.rs:366-372 | dropping the tables makes the close move |
| Regions.FindVma | kernel/src/mm/space.rs:125-127 | the region found is the first that covers the address, and none is found only when none does |
| Regions.RemovedKeepsPlan | kernel/src/mm/space.rs:144-172 | a page outside the range removed keeps its flags, file, offset and byte count, even where regions overlap and the first wins |
| Regions.RemovedCoversNothing | kernel/src/mm/space.rs:144-172 | no region covers any address inside the range removed |
| Regions.MemState.RemoveVmaRange | kernel/src/mm/space.rs:144-172 | the loop leaves each region's pieces in the regions' order |
| Regions.MemState.Clash | kernel/src/mm/space.rs:180-181 | the end of a region the span meets, or none when it meets none |
| Regions.MemState.FindFreeRegion | kernel/src/mm/space.rs:175-190 | the search ends, and its answer meets no region and starts at or above the end of every answer given before |
| Regions.AnswersAreApart | kernel/src/mm/space.rs:175-190 | no two answers ever given share a byte, whatever happened to the regions in between |
| Faults.NothingBehindUnmap | kernel/src/mm/space.rs:688-758 | whatever faults, unmaps and changes interleave, when an unmap outside the break is ready to return no page of its range is mapped unless a change since recorded something at that page |
| Faults.NothingBehindSweep | kernel/src/mm/space.rs:745-758 | the same for pages taken away after the break was lowered |
| Faults.OnlyCommitsPut | kernel/src/mm/space.rs:486-506 | only a commit puts a page in, where nothing was, and with what the record names at that moment |
| Faults.CommitServes | kernel/src/mm/space.rs:688-726 | whatever runs while a fault fills a page, its commit ends with the page mapped if and only if somebody mapped it meanwhile, or the record still names what it was filled for and the walk had tables enough, and then it is that |
| Faults.CommitIsPublish | kernel/src/mm/space.rs:486-506 | a commit is the guard's publish of a frame with the plan's flags: what it makes of the page map, and what each descriptor grants, is what the commit step makes of the pages and their plans, short of tables or not |
| Faults.ChunkIsUnmapRange | kernel/src/mm/space.rs:751-758 | one turn of an unmap is the guard's unmap of that range, pages and permissions |
| Faults.MarkingShows | kernel/src/mm/walk.rs:678-688 | a fork's mark on a page changes nothing of the pages and their permissions |
| Faults.BreakingShows | kernel/src/mm/space.rs:806-857 | nor does breaking a share, whatever the count and the spare frame |
| Faults.PagesMatchARecord | kernel/src/mm/space.rs:453-506 | every page in at the end of a run was in at the start or was put in by a commit when the record named exactly that |
| Faults.DescriptorsMatchARecord | kernel/src/mm/space.rs:453-506 | every descriptor at the end of a run grants what its page had at the start, or what the record named when a commit put it in |
| Elf.SumFrom | kernel/src/elf.rs:255-261 | the checked sum is the true sum, or is refused exactly when that does not fit a word |
| Elf.ExtentIsSane | kernel/src/elf.rs:293-335 | of an accepted segment with a page-aligned base no later sum or subtraction wraps: its bytes lie inside the segment and the file, and its first page begins inside the file |
| Elf.CollectLoads | kernel/src/elf.rs:370-388 | the segments in order, refused exactly when one does not add up, there are too many pages, or there is nothing to map |
| Elf.CollectFlags | kernel/src/elf.rs:390-402 | every page of the image, and no other, with the permissions of all the segments it is in |
| Elf.EagerPages | kernel/src/elf.rs:404-430 | exactly the partial heads, the pages from the end of a segment's bytes on, and the pages two segments share |
| Elf.CopySegment | kernel/src/elf.rs:449-469 | the segment's bytes are over what earlier segments left, in the assembled pages and nowhere else |
| Elf.Assemble | kernel/src/elf.rs:444-469 | every byte of an assembled page is the file byte of the last segment whose bytes cover it, and zero otherwise |
| Elf.LazyPageIsImage | kernel/src/elf.rs:535-562 | a page left to a fault is recorded with the permissions the loader would give it, and what the fault fills it with is the image |
| Elf.LoadAt | kernel/src/elf.rs:353-562 | each page of the image has the bytes and permissions the headers describe whichever way it comes |
| Heap.CanonicalIsUnique | kernel/src/mm/heap.rs:1-35 | two lists that are ordered, disjoint and never touching and have the same free bytes are the same list |
| Heap.HoleList.Seek | kernel/src/mm/heap.rs:88-94 | the search stops between the holes below the block and those above it |
| Heap.HoleList.Merge | kernel/src/mm/heap.rs:103-111 | relinking the nodes in place merges the block with the neighbours it touches and only those |
| Heap.HoleList.Insert | kernel/src/mm/heap.rs:83-112 | the list stays canonical, its count of free bytes the sum of its holes, and becomes the old one with the block placed in it |
| Heap.InsertedGives | kernel/src/mm/heap.rs:83-112 | placing a block frees its bytes and no others |
| Heap.HoleList.AddRegion | kernel/src/mm/heap.rs:74-80 | a region too small for a node is ignored, any other is placed and counted |
| Heap.HoleList.Split | kernel/src/mm/heap.rs:134-152 | unlinking the hole and putting back what is left takes exactly the block out |
| Heap.HoleList.Alloc | kernel/src/mm/heap.rs:114-158 | null exactly when no hole fits; otherwise an aligned block whose bytes were free and are all that stopped being |
| Heap.HoleList.Dealloc | kernel/src/mm/heap.rs:160-163 | the block is placed back |
| Heap.DeallocUndoesAlloc | kernel/src/mm/heap.rs:114-163 | giving a block back after taking it restores the very same list |
| Heap.OrderOfFreesIsNothing | kernel/src/mm/heap.rs:83-163 | frees of the same blocks in any order end in the same list |
| Heap.AllocStaysDisjoint | kernel/src/mm/heap.rs:114-158 | a block handed out shares no byte with any other or with a hole |
| Heap.DeallocStaysDisjoint | kernel/src/mm/heap.rs:160-163 | the blocks still out stay apart from each other and from the holes |
| Heap.FitsIffRoom | kernel/src/mm/heap.rs:124-131 | with blocks in whole nodes, a hole fits exactly when some aligned run of free bytes that long exists at all |
| Frames.LowestClear | kernel/src/mm/frame.rs:111 | the bit found is clear and every lower one is set |
| Frames.BitmapAllocator.constructor | kernel/src/mm/frame.rs:248-275 | every frame starts in use, and the count says so |
| Frames.BitmapAllocator.Scan | kernel/src/mm/frame.rs:106-123 | a clear frame of the words searched, or none of them has one |
| Frames.BitmapAllocator.Alloc | kernel/src/mm/frame.rs:99-125 | nothing exactly when no frame is free, whatever the hint; otherwise one frame that was free, with one reference, and the count of used frames stays the set bits |
| Frames.BitmapAllocator.FindRun | kernel/src/mm/frame.rs:135-151 | a run that long, or there is none |
| Frames.BitmapAllocator.TakeRun | kernel/src/mm/frame.rs:143-149 | exactly the run is taken, each frame with one reference |
| Frames.BitmapAllocator.AllocContiguous | kernel/src/mm/frame.rs:128-153 | fails exactly when no such run exists, or none was asked for |
| Frames.BitmapAllocator.Free | kernel/src/mm/frame.rs:156-171 | one reference fewer, and free exactly when it was the last |
| Frames.BitmapAllocator.Share | kernel/src/mm/frame.rs:173-179 | one reference more, up to the largest count, for a frame in use |
| Frames.BitmapAllocator.MarkRangeUsed | kernel/src/mm/frame.rs:74-85 | exactly the frames the range rounded out reaches become used |
| Frames.BitmapAllocator.MarkRangeFree | kernel/src/mm/frame.rs:87-96 | exactly the frames inside the range rounded in become free |
| Frames.RoundingIsExact | kernel/src/mm/frame.rs:74-96 | rounded out is every page with a byte of the range, rounded in every page with nothing else |
| Boot.BootInfo.Reserve | kernel/src/boot.rs:110-137 | nothing asked for before is given up, the whole range is reserved, and no more is unless the table is full and nothing touches the range |
| Boot.BootInfo.Nearest | kernel/src/boot.rs:126-134 | no entry starts nearer |
| Boot.Build | kernel/src/mm/frame.rs:248-309 | a frame is free exactly when it lies whole in usable memory below the limit and no range held back reaches it |
| Boot.FreeFrameIsClear | kernel/src/mm/frame.rs:248-309 | no byte of a free frame is in a range held back |
| Boot.FirstOverlap | kernel/src/mm/frame.rs:317-331 | the end of a range the span overlaps, or none when it overlaps none |
| Boot.SearchRegion | kernel/src/mm/frame.rs:345-366 | the search ends with a clear page-aligned spot in the region, or the region has none |
| Boot.FindMetadata | kernel/src/mm/frame.rs:334-370 | the metadata goes in usable memory clear of everything held back, or there is no room anywhere |
| Pool.WithheldForEver | kernel/src/mm/frame.rs:99-179 | over every run of allocations, contiguous ones, shares and frees of held references, a frame in use that nobody was handed is never handed out |
| Pool.NothingHeldBackIsHandedOut | kernel/src/mm/frame.rs:248-309 | no byte of a frame that any call of a run returns is in a range the build held back |
| Pool.OnlyMemoryIsHandedOut | kernel/src/mm/frame.rs:248-309 | every byte of a frame that any call of a run returns is in a usable region of the map, below the limit |
| Pool.TableHolds | kernel/src/boot.rs:110-137 | every byte of every range ever reserved is in the table, folded entries included |
| Pool.BootMemoryIsNeverHandedOut | kernel/src/mm/frame.rs:248-309 | so no frame returned, in any run, has a byte in the kernel, the metadata, a module, a claimed or unusable range, or any range ever reserved, and every byte of it is usable memory |
| Pool.RunCounted | kernel/src/mm/frame.rs:99-179 | while no frame is held more than 65535 times, its count is the references out |
| Pool.NobodyIsHandedWhatIsHeld | kernel/src/mm/frame.rs:99-179 | and then no call hands out a frame that somebody holds |
| Pool.FullCountFallsShort | kernel/src/mm/frame.rs:173-179 | a share of a frame held 65535 times leaves its count below the references out |
| Telnet.DecodedPrefix | scripts/console.py:181-218 | a prefix of the wire decodes to a prefix of the data |
| Telnet.OrderIsSkipped | kernel/src/console/telnet.rs:301-335 | no command, request or subnegotiation is taken for data by either end, and data goes on after it |
| Telnet.TypedComesThrough | scripts/console.py:175-179 | the board decodes what the client typed, for every byte sequence |
| Telnet.KeysComeThrough | kernel/src/console/telnet.rs:280-337 | the same with any commands between the keys |
| Telnet.Input.Feed | kernel/src/console/telnet.rs:280-337 | the board's state machine, byte by byte, is that decoder |
| Telnet.Client.Feed | scripts/console.py:181-218 | the client's loop is its decoder, over any split into chunks |
| Telnet.TextComesThrough | kernel/src/console/telnet.rs:127-158 | the client decodes what the board encoded, for every byte sequence and any interleaved commands |
| Telnet.SentIsAPrefix | kernel/src/console/telnet.rs:115-158 | however much of the wire has left, the client has a prefix of the text |
| Console.KernelLog.Push | kernel/src/serial.rs:169-182 | the log is what the message machine keeps of it, the end of everything ever pushed, and the position counts all of it |
| Messages.KeptIsTheEnd | kernel/src/serial.rs:169-182 | whatever is pushed, byte by byte with the older half dropped at the top, the log is the end of the history |
| Messages.StepKeeps | kernel/src/serial.rs:169-219 | every push, print, attach, detach and clear keeps what the log and the connection hold tied to what was pushed and printed |
| Messages.RunKeeps | kernel/src/serial.rs:169-219 | so does every interleaving |
| Messages.InLogIffRecent | kernel/src/serial.rs:169-182 | a byte of a message is in the log a connection was sent if and only if it was pushed before and no more bytes than the log held were pushed since |
| Messages.MessageReaches | kernel/src/console/telnet.rs:182-195 | no byte of a message comes both ways; it comes whole if and only if it was printed, when it was pushed after the attach, and the bytes since its start fit in the log sent, when before |
| Messages.RunReaches | kernel/src/console/telnet.rs:182-195 | the same after every interleaving, and no message comes live twice |
| Messages.LostWhenTheLogMovesOn | kernel/src/serial.rs:208-219 | a message pushed, followed by a log's worth of others and an attach before its print, is in neither |
| Messages.LostWhenTheLogIsCleared | kernel/src/serial.rs:208-219 | so is one pushed before a clear and printed after an attach |
| Console.Outbox.Put | kernel/src/console/telnet.rs:115-124 | all the bytes are queued or none, exactly by whether there is room |
| Console.Outbox.PutText | kernel/src/console/telnet.rs:127-145 | the byte is queued encoded, with the NUL of a lone CR before it, or nothing is |
| Console.Outbox.PutCommand | kernel/src/console/telnet.rs:150-158 | a command never comes between a CR and what settles it |
| Console.Outbox.Copy | kernel/src/console/telnet.rs:160-171 | what was sent in the log is left out, the rest becomes due, and is queued up to the first byte that does not fit, after which the stream has overflowed |
| Console.Outbox.Command | kernel/src/console/telnet.rs:174-180 | a command adds no text |
| Console.Outbox.Attach | kernel/src/console/telnet.rs:196-214 | a new connection gets the offers and the whole log, and attaching never overflows the queue |
| Console.Outbox.Peek | kernel/src/console/telnet.rs:224-230 | the two runs of the ring are the oldest bytes in order |
| Console.Outbox.Consume | kernel/src/console/telnet.rs:232-236 | those bytes leave and the rest stay queued |
| Console.ClientHasPrefix | kernel/src/console/telnet.rs:182-236 | what has left the queue decodes to a gap-free prefix of the log and everything printed since the attach, and to all of it once the queue of an attached stream is empty |
| WaitQueues.StepKeeps | kernel/src/sched.rs:1264-1327 | every section keeps each sleeper on the list, and a wake owed whenever the condition holds with somebody asleep |
| WaitQueues.StartKeeps | kernel/src/sched.rs:1255-1257 | a queue nobody waits on has all of it |
| WaitQueues.NoLostWakeUp | kernel/src/sched.rs:1259-1327 | in no reachable state is a task asleep on the queue without a deadline while the condition holds and no wake is owed |
| WaitQueues.WakeAllFreesAll | kernel/src/sched.rs:1318-1327 | a wake of the queue leaves nobody asleep on it |
| Futexes.MarkIsExact | kernel/src/futex.rs:48-61 | as many waiters as were asked for and were there are marked, oldest first, and nobody else |
| Futexes.WaiterList.MarkWoken | kernel/src/futex.rs:48-61 | the loop marks exactly those and names their tasks |
| Futexes.MoveKeeps | kernel/src/futex.rs:32-101 | every step keeps a marked sleeper on its way to being woken |
| Futexes.StartKeeps | kernel/src/futex.rs:30 | an empty queue owes nobody a wake |
| Futexes.NoWaiterLeftAsleep | kernel/src/futex.rs:32-101 | over every interleaving no waiter stays asleep once the wakes that marked its registration have finished, whatever others are under way |
| Processes.ExitSeen | kernel/src/sched.rs:508-596 | an exit moves nobody between groups, and tells the parent exactly when it was the last thread's |
| Processes.ToldAtTheEnd | kernel/src/task.rs:778-797 | the parent is told at the step where the last thread becomes a zombie and by no other step |
| Processes.AdoptedAtTheEnd | kernel/src/sched.rs:584-595 | a step tells init of a process again exactly when it is the last exit of the parent's group and the process had ended and was not released, and init is then its parent |
| Processes.StepKeeps | kernel/src/sched.rs:1050-1174 | every hold of the table keeps a leader in it while any thread lives, one telling per ended process, a parent that knows of each ended child, and what was collected gone |
| Processes.BootKeeps | kernel/src/sched.rs:163-175 | the table at boot has all of it |
| Processes.ProcessEndsOnce | kernel/src/sched.rs:1061-1174 | over every run no process is collected twice or with a task left, and its parent is told at most once |
| Processes.FirstStatusWins | kernel/src/sched.rs:494-504 | once a group has been ended, whatever its threads do, the status collected is that first one |
| RoundRobin.Table.Expire | kernel/src/sched.rs:256-260 | exactly the sleepers whose deadline has passed become runnable |
| RoundRobin.Table.Search | kernel/src/sched.rs:267-283 | the first task round the table that can run, or none can |
| RoundRobin.Table.PickNext | kernel/src/sched.rs:250-292 | the nearest task round the table that can run is left running, or idle when none can |
| RoundRobin.NearerEachTime | kernel/src/sched.rs:250-292 | a decision that does not choose a runnable task brings the round nearer to it |
| RoundRobin.StarvationFree | kernel/src/sched.rs:250-292 | a task that stays runnable is chosen within as many decisions as the table has tasks, whatever the others do |
| Timers.Reads | kernel/src/itimer.rs:46-57 | a timer reads as off exactly when it is off |
| Timers.FiredIsNextPoint | kernel/src/itimer.rs:78-87 | a timer that reloads is due at the first point of its original phase strictly after now |
| Timers.RealTimers.Set | kernel/src/itimer.rs:143-157 | arming and disarming keep the bound at or below every live timer |
| Timers.RealTimers.FireRealTimers | kernel/src/itimer.rs:247-273 | exactly the timers due in live processes fire, and the bound is again below all that are left |
| Timers.RealTimers.OnTick | kernel/src/itimer.rs:189-201 | after a tick none is still due and none fired early, though the table is walked only when the bound says so |
| Civil.CivilUndoesDays | kernel/src/time.rs:99-122 | the date of a valid date's day number is that date |
| Civil.DaysUndoesCivil | kernel/src/time.rs:99-122 | every day number, negative ones included, gives a valid date whose day number it is |
| Civil.DaysAreConsecutive | kernel/src/time.rs:111-122 | consecutive day numbers are consecutive calendar dates |

## Left out

- Fork.ShareRange: after a refused page it promises only that both hierarchies are still whole; the fork never meets that case.
- Fork.ForkPages: the making of the child's empty tables and the copying of the region record are not part of it, and it is a run in which no sibling of the parent acts; `Spaces` covers the runs in which they do.
- Fork.FillStock: when the allocator runs out the frames already gathered stay in the stock, where the source loses them.
- Spaces.StepKeeps: counts are unbounded, where the source's stop at 65535; `Pool.FullCountFallsShort` is what happens there.
- Tables.Tables.Translate: gives the base, the level and the offset in what the walk ended at, and does not form their sum.
- Messages.RunReaches: a message is printed in one step, and one connection at a time is followed, as the console has one.
- Calls.ShareCall: one page under both locks; the loops around it are `Fork`.
- Spaces.RunKeeps: a change of protection is a step only where `Spaces.ProtectIsolates` allows it, since the code does not keep isolation without that.
- Elf.LoadAt: the file is taken not to change during the load, and frames and table space not to run out; parsing of the header bytes, the interpreter, thread-local storage and the program-header address are not modelled.
- Regions.MemState.FindFreeRegion: addresses do not wrap, here and in the rest of the region record.
- Boot.FindMetadata: asks for at least one byte of metadata.
- Boot.Build: the limit up to which memory is managed is a parameter, as are the kernel's own range and the ranges the machine claims.
- Heap.HoleList.Alloc: addresses do not wrap, and growing the heap by mapping more of it is not modelled.
- WaitQueues.NoLostWakeUp: one queue at a time, and a task waits on one queue at a time, as the source has it.
- Memory ordering, store barriers and the second processor: a step is a hold of a lock, and a store is seen at once.
- `MemState::set_vma_prot`, and pages put in by exec, mmap and the stack while faults run.
- The virtual and profiling timers, signals, stops and continues beyond their effect on a wait, and the idle task's own loop.
- The telnet service's sockets and ticks, and the client's answers to option requests.
- File systems, the network stack, drivers, the system-call layer, the user programs and the build tooling.
