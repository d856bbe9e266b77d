# A model of the kernel's state-keeping parts

This project models the parts of a small x86-64 kernel that keep state other parts rely on, and proves what
they are relied on for:

* **Memory** (`memory_manager`, `page_table`, `page_mapping`, `setup_proof`, `permission`, `shadow`, `frame_count`,
  `copy_on_write`, `clean_proof`, `copy_proof`, `paging`, `address_space`). One bitmap of physical frames; four-level
  page tables in those frames, in which the writable bit doubles as an ownership mark; mapping, cleaning, sharing an
  image. Mapping is described without asking for ownership to be in order: `shadow` follows the frames, `permission`
  the pages, and `frame_count` says how many frames a run of pages takes.
* **Applications** (`addresses`, `application`, `stack_setup`, `kernel`, `runs`, `lost_start`). Starting from a cached
  image, the copy-on-write and demand-paging fault handler, loads and stores, and the end. Over any run the frames
  stay accounted for, and each application reads from its image, its stack, its demand pages and its mapped files what
  was there at first, overlaid with its own stores.
* **Tasks** (`scheduler`, `round_robin`, `wait_finish`, `messages`, `placement`, `task`, `task_runs`). Four run queues
  with a lazily recomputed level, as a state machine whose steps are the task manager's operations, and the task
  manager itself, field by field, with the messages tasks send each other.
* **Files** (`cluster_chain`, `fat_content`, `fat_file`, `fat_round_trip`, `file_regions`, `page_contents`,
  `file_mapping`). FAT32 cluster chains, file descriptors as cursors refining a flat sequence of bytes, and files
  mapped into memory page by page.
* **USB host controller** (`ring`, `event_ring`, `ports`, `port_turns`). The producer ring store by store and load by
  load, the event ring, and the port configuration phases.
* **Inflate's Huffman decoder** (`bits`, `huffman_code`, `canonical_code`, `huffman`, `huffman_decode`). The
  table-driven decoder against canonical prefix decoding.
* **Windows** (`graphics`, `frame_buffer`, `composition`, `layer`). Damage-limited repainting against painting
  everything.
* **Timers and pipes** (`timer`, `pipe`).

Code that changes state is modelled by classes and loops with the source's fields and branches; each method is
tied to a specification function or to the exact new state, and the results over runs are proved about those.
Ghost parameters and fields carry what only a proof needs: the chain behind a cursor, the state of the machine a
class follows, histories.

Where the code does not do what its own comments or callers expect, the code is what is modelled:

* `CopyPageMaps` returns inside its loop above level 1, so only pages behind the first present entries are copied
  (`CopyProof.CopyComplete` says exactly when that is all of them, `CopyProof.SecondEntryIsLost` shows an image that
  loses a page).
* `SetupPageMap` sets the writable bit of pages that are already present; over the whole run of pages ownership stays
  in order iff that changes nothing (`Permission.RemapKeepsOrderIff`, `Paging.Machine.SetupPageMaps`). A new
  application's argument and stack pages are in order iff its image has no page among them
  (`StackSetup.SetupArgsAndStack`, `Application.CopyAbsentIff`).
* A start of an application that fails half way never gives its frames back. It succeeds iff `StartNeed` frames are
  free, between 21 and 24 of them, and loses frames iff there are fewer, but not none (`Kernels.Kernel.Start`,
  `Runs.LostIff`; `LostStart.StartLosesAFrame` shows one that does).
* `FileDescriptor::Write` takes pieces of `min(len, ...)` where the rest of `len` is meant, and goes on in the last
  cluster `ExtendCluster` added. `FatContent.WriteTotalExact` says exactly when the count returned is `len`
  (`FatContent.FiveBytesCountEight` is a case where it is not), and `FatFile.FileDescriptor.Write` exactly when the
  bytes land behind one another.
* `FileDescriptor::Read` subtracts a cursor from a file size without sign (`FatFile.AvailableIsTheRest`,
  `FatFile.CursorBeyondTheEnd`).
* When an address was assigned, only the waiting port with the lowest number is considered (`Ports.HandledStrands`
  says exactly when ports are left stranded, `Ports.PortThreeIsStranded` shows one).

## Model

| member | source | states |
|---|---|---|
| MemoryManager.FirstFitIsLowest | src/kernel/memory_manager.cpp:10-34 | the specification of the scan: the run found is the lowest one in range whose frames are all free, and none is found iff there is no such run |
| MemoryManager.FirstFitUnique | src/kernel/memory_manager.cpp:10-34 | a start that is free for n frames with none free below it is the one first fit gives |
| MemoryManager.OneFrame | src/kernel/memory_manager.cpp:10-34 | a single frame is found iff one is free, and taking it leaves exactly the others free |
| MemoryManager.UpdateBit | src/kernel/memory_manager.cpp:63-79 | setting or clearing a bit of a 64-bit word changes the answer for that frame and for no other frame of the word |
| MemoryManager.BitmapMemoryManager.SetBit | src/kernel/memory_manager.cpp:70-79 | the words refine a set of frame numbers: exactly the frame named joins or leaves it |
| MemoryManager.BitmapMemoryManager.MarkAllocated | src/kernel/memory_manager.cpp:43-47 | exactly the n frames join the allocated set |
| MemoryManager.BitmapMemoryManager.Free | src/kernel/memory_manager.cpp:36-41 | exactly the n frames leave the allocated set |
| MemoryManager.BitmapMemoryManager.Allocate | src/kernel/memory_manager.cpp:10-34 | the result and the new set are those of first fit, although the scan skips ahead behind a taken frame; failure changes nothing |
| MemoryManager.HistoriesAreSound | src/kernel/memory_manager.cpp:10-47 | over any sequence of allocations and releases live blocks are pairwise disjoint, avoid the reserved frames, and with them make up exactly the allocated set |
| PageTable.LowBound | src/kernel/paging.hpp:30-62 | a page's position under a table lies within the span of the table's level |
| Addresses.PageNumber | src/kernel/paging.hpp:30-62 | the position of an address's page under a top table, by which runs of pages are counted, is the address divided by 4096, modulo 2^36 |
| Addresses.SamePageIff | src/kernel/paging.hpp:30-62 | two addresses of the upper half have the same four parts iff they lie in the same 4096 bytes |
| PageTable.TreeFrame | src/kernel/paging.hpp:64-90 | whether a tree is in order, what it owns and how it translates depends on its table frames only |
| PageTable.WalkReaches | src/kernel/paging.hpp:64-90 | the frame of a present page is owned by the tree if the leaf is writable and shared otherwise |
| PageTable.ChangeSlot | src/kernel/paging.cpp:60-96 | a change behind one slot that keeps what the slot owned leaves every other translation and page alone and keeps the tree in order |
| PageTable.Descend | src/kernel/paging.cpp:77-83 | growth of the table behind a slot is growth of the table above |
| Paging.Machine.NewPageMap | src/kernel/paging.cpp:172-181 | a zeroed frame iff any is free, one fewer being free afterwards; or no change at all |
| Paging.Machine.SetNewPageMapIfNotPresent | src/kernel/paging.cpp:44-58 | an entry that is present is left alone and its frame returned; otherwise it gets a fresh zeroed frame; failure changes nothing |
| FrameCount.NeedInOneTable | src/kernel/paging.cpp:60-96 | the frames a run of pages inside one table takes, counted along the recursion of the mapping, are the tables missing on the way and the pages that are absent |
| FrameCount.NeedKept | src/kernel/paging.cpp:60-96 | what a run of pages takes depends on the tables on its way only |
| Paging.Machine.SetupPageMap | src/kernel/paging.cpp:60-96 | for any permissions found: it succeeds iff the frames the run takes are free, and takes exactly those; no page changes its frame, pages outside the run keep their permission, those that appear have, by Permission.FreshPages, zeroed frames to themselves; on success all pages of the run that fit are present with the permission asked for and exactly the number that did not fit is returned; it terminates at every level |
| Paging.Machine.SetupPageMaps | src/kernel/paging.cpp:188-191 | the same for the current address space, whose tables need only be a proper tree; pages that appear have zeroed frames to themselves; if ownership was in order and it succeeds, ownership is in order afterwards iff every page already present in the run had the permission asked for |
| PageMapping.SetupTrans | src/kernel/paging.cpp:63-93 | two mapping steps one after the other have the effect of one |
| PageMapping.SetupDescend | src/kernel/paging.cpp:77-83 | mapping in the table behind a slot is mapping the shifted run of the table above |
| PageMapping.SetupLink | src/kernel/paging.cpp:44-58 | a free frame hung into an absent entry, as a table or as a page, keeps ownership in order |
| Permission.RemapInOrder | src/kernel/paging.cpp:66-76 | if ownership is in order after a run that was served, no page of the run changed its permission |
| Permission.RemapKeepsOrderIff | src/kernel/paging.cpp:60-96 | after a whole run that was served, ownership is in order iff each page of the run that was already present carried the permission asked for |
| Permission.FreshPages | src/kernel/paging.cpp:44-58 | whatever permissions were found, a page that appears has a frame to itself that was free, and is zeroed |
| Shadow.SpaceInShape | src/kernel/paging.cpp:60-96 | a tree whose ownership is in order has a shadow: the same tables with all pages read-only, in order as well, so that mapping can be followed whatever the permissions are |
| Paging.Machine.SetPageContent | src/kernel/paging.cpp:146-158 | the page of the address, and no other, is backed by the frame given, writable |
| Paging.Machine.CopyOnePage | src/kernel/paging.cpp:160-169 | the faulting page has a fresh frame to itself with the contents it showed; all other pages and the shared frame are unchanged; it fails iff no frame is free, and then nothing changes |
| CopyOnWrite.LeavesDiffer | src/kernel/paging.cpp:146-169 | different pages of a tree never share a frame the tree owns |
| CopyOnWrite.StoreKeepsTree | src/kernel/paging.cpp:146-169 | a store into an owned page changes no translation and the contents of that page only |
| Paging.Machine.CleanPageMap | src/kernel/paging.cpp:98-122 | exactly the owned frames reached from the address on are freed, each once while it is allocated, and the entries cleared |
| Paging.Machine.CleanPageMaps | src/kernel/paging.cpp:193-196 | the same for the current address space |
| CleanProof.FreedAll | src/kernel/paging.cpp:98-122 | cleaning from the first page of a slot frees everything owned from that slot on |
| Paging.Machine.CopyPageMaps | src/kernel/paging.cpp:198-225 | the destination translates the pages on the source's first path like the source, read-only, and no others; it succeeds iff a frame for each level below the top is free, and takes exactly those; the source is not changed; ownership is in order also if memory runs out |
| CopyProof.CopyComplete | src/kernel/paging.cpp:210-224 | the copy shows every page of the image iff every present page lies behind the first present entries of the upper levels |
| CopyProof.SecondEntryIsLost | src/kernel/paging.cpp:210-224 | a concrete image with two present entries in its upper table: the page behind the second one is absent from the copy |
| CopyProof.SinglePathIsFirst | src/kernel/paging.cpp:210-224 | which is so for images with at most one present entry in each table above level 1 |
| AddressSpace.GrowLocal | src/kernel/paging.cpp:60-96 | a space that grows out of free frames leaves every other space and the shared frames alone, and no frame belongs to two spaces |
| AddressSpace.StoreLocal | src/kernel/paging.cpp:146-169 | a store into an owned page is seen by no other space |
| AddressSpace.EndLocal | src/kernel/terminal.cpp:590-593 | a space that ends gives back exactly its own frames |
| AddressSpace.AllReturned | src/kernel/terminal.cpp:590-593 | with no space left, exactly the frames of the kernel and the cached images are in use |
| AddressSpace.ShowsKept | src/kernel/paging.cpp:160-169 | what other spaces do does not show |
| AddressSpace.ShowsStore | src/kernel/paging.cpp:160-169 | a space's own store shows in the stored word and nowhere else |
| AddressSpace.ShowsPrivate | src/kernel/paging.cpp:160-169 | a private copy shows what the shared page showed |
| AddressSpace.ShowsCopy | src/kernel/paging.cpp:198-225 | a fresh copy shows exactly the pages of the image that are on the first path, with the image's contents |
| AddressSpace.ShowsGrown | src/kernel/paging.cpp:60-96 | pages that were mapped begin as zeros, and every page there before shows what it showed |
| AddressSpace.ShowsFilled | src/kernel/paging.cpp:133-144 | a page the kernel fills, nothing having been stored to it, shows those contents, every other page what it showed |
| Application.KeepOthers | src/kernel/terminal.cpp:544-594 | what one application does leaves the frames of the system accounted for and what every other one sees as it was |
| Application.CopyAbsentIff | src/kernel/terminal.cpp:554-571 | pages of a range are absent from a fresh copy iff the image shares none of them |
| Application.PathMissingIs | src/kernel/paging.cpp:210-224 | the tables missing on the way to a page in a fresh copy can be told from the image alone, before the copy is made |
| Application.ReturnedIff | src/kernel/terminal.cpp:590-593 | with no application live, the frames in use are those in use at first iff no start was lost |
| StackSetup.StackNeeds | src/kernel/terminal.cpp:554-571 | the argument page first and the stack pages after it take together what the whole range takes |
| Application.StackAddresses | src/kernel/terminal.cpp:554-571 | the argument page is at 0xfffffffffffff000 and the stack begins 16 pages below it |
| Application.InitialContents | src/kernel/paging.cpp:227-244 | byte by byte, the lowest of each word first: a page brought by a fault at any address holds zeros in the demand region, and in a mapping the byte of the file at the distance of its address from the beginning of the mapping, or zero behind the end of the file |
| StackSetup.SetupArgsAndStack | src/kernel/terminal.cpp:554-571 | for any image: it succeeds iff the frames the range takes are free, and takes exactly those; then all the pages are there and writable, and ownership is in order iff none of them was there before |
| Kernels.Kernel.SetupPML4 | src/kernel/terminal.cpp:123-136 | a fresh top table with the kernel half of the current one and nothing above it, iff a frame is free |
| Kernels.Kernel.LoadCached | src/kernel/terminal.cpp:180-185 | the new space shows the cached image, iff three frames are free |
| Kernels.Kernel.SetupStack | src/kernel/terminal.cpp:554-571 | the space shows its image and zeroed argument and stack pages |
| Kernels.Kernel.Start | src/kernel/terminal.cpp:544-581 | a start succeeds iff the frames of the top table, the three copied tables, the 17 argument and stack pages and the tables missing on the way to them are free, for which 24 suffice, and takes exactly those; then the application shows its image and zeroed argument and stack pages; a space is lost iff the start fails and some frame was free; no other application and no image is changed |
| Kernels.Kernel.ServeWrite | src/kernel/paging.cpp:160-169 | a write to a present read-only page is served iff a frame is free; the page is writable then and every application sees what it saw |
| Kernels.Kernel.ServeDemand | src/kernel/paging.cpp:227-237 | an absent page is mapped, zeroed, iff the frames for it and the missing tables are free, and exactly those are taken |
| Kernels.Kernel.PreparePageCache | src/kernel/paging.cpp:133-144 | the same, and the page begins with the contents given; only the current application sees a change |
| Kernels.Kernel.HandlePageFault | src/kernel/paging.cpp:227-244 | for a fault at any 64-bit address, on its bits: it is served iff the page is present, read-only and written to in user mode with a frame free, or absent with the address in the demand region or a mapping and the frames free; then the page selected by bits 12 to 47 is present and writable, and one that was absent holds zeros or, at each byte, the file's byte for that address; each error code says exactly why; the current application gains exactly that page, all others are as they were; an error of the handler's own changes nothing |
| Kernels.Kernel.UserStore | src/kernel/paging.cpp:227-244 | a user-mode store reaches exactly the word at its address, through the fault handler if need be; the rest of a page that was absent holds zeros or the file's bytes; it fails iff the page is present and read-only and no frame is free, or absent with nothing to map there or too few frames |
| Kernels.Kernel.UserLoad | src/kernel/paging.cpp:227-244 | a load from any page, of the image, the stack, the demand region or a file, gives the latest of the application's own stores to the word, or what the page held at first; if the page was absent, byte by byte zeros or the file's bytes at those addresses; it fails iff the page is absent and cannot be mapped |
| Kernels.Kernel.Exit | src/kernel/terminal.cpp:590-593 | exactly the frames of the application are freed; the images and all others are untouched |
| Runs.Step | src/kernel/terminal.cpp:544-594 | each event does what AppStep says of the state before: a store or load is served, or ends the application iff the fault cannot be served; a start succeeds iff its frames are free; an end gives back exactly the application's frames; all else stays |
| Runs.Undisturbed | src/kernel/terminal.cpp:544-594 | events of other applications, in any number and order, change nothing of what an application has |
| Runs.LostIff | src/kernel/terminal.cpp:544-581 | over a run no space is lost iff each start found the frames it takes, or no frame at all |
| Runs.EnoughMemory | src/kernel/terminal.cpp:544-594 | with 24 free frames for each start and 4 for each load and store at the beginning, none is lost |
| Runs.Run | src/kernel/terminal.cpp:544-594 | over any interleaving of starts, stores, loads and exits: every event is a step, every load gives the first contents overlaid with the application's own stores, cached images never change, and once no application is live the frames in use are those in use at first iff no start was lost |
| LostStart.StartLosesAFrame | src/kernel/terminal.cpp:544-581 | a concrete state with one free frame, in which a start fails and that frame stays in use although no application is live |
| Scheduler.InitInv | src/kernel/task.cpp:113-124 | the state after construction is in order |
| Scheduler.StepInv | src/kernel/task.cpp:113-297 | every operation keeps the queues, the levels and the books on waiting in order |
| Scheduler.ReachableStructure | src/kernel/task.cpp:140-297 | after any run a live task occurs in the queue of its own level once if it is marked running, and otherwise nowhere; the current queue is never empty |
| Scheduler.OnlyRotationSwitches | src/kernel/task.cpp:131-138 | no operation but a rotation changes which task is current, not even a task changing its own level |
| Scheduler.RotationPicksHighest | src/kernel/task.cpp:275-297 | after a rotation no level change is pending and a task of the highest occupied level runs; for a task that ends, if nobody waited for it |
| Scheduler.TopRuns | src/kernel/task.cpp:275-297 | whenever no level change is pending a task of the highest occupied level is current |
| RoundRobin.QueueStepPlace | src/kernel/task.cpp:275-280 | each rotation moves a task one place forward and no operation moves it back while its level stays current |
| RoundRobin.RunsInTurn | src/kernel/task.cpp:131-138 | a task p places behind the front of the current level runs after at most p rotations |
| WaitFinish.FinishKeepsWaits | src/kernel/task.cpp:213-230 | when a task ends its code is stored and whoever waits for it is runnable |
| WaitFinish.WaitKeepsWaits | src/kernel/task.cpp:232-245 | a round of the waiting loop hands over exactly the stored code, or registers the caller and puts it to sleep |
| WaitFinish.NoLostFinish | src/kernel/task.cpp:213-245 | after any run, messages and spurious wakeups included: nobody sleeps waiting for a task that has ended, every registered waiter is a live task inside the wait, and each exit code is stored or was handed over, never both and never twice |
| WaitFinish.NoLostFinishFromInit | src/kernel/task.cpp:113-245 | the same from the state after construction |
| WaitFinish.FinishReachesWaiter | src/kernel/task.cpp:213-245 | once the awaited task has ended, whatever the others do, the waiter stays runnable and the code stays stored until the waiter runs |
| WaitFinish.SecondWaiterStrandsTheFirst | src/kernel/task.cpp:241-242 | why there may be one waiter only: a second one takes the registration of the first, which sleeps on |
| Tasks.Erase | src/kernel/task.cpp:8-12 | the queue without the task, everything else in order |
| Tasks.TaskManager.constructor | src/kernel/task.cpp:113-124 | the initial state of the machine |
| Tasks.TaskManager.NewTask | src/kernel/task.cpp:126-129 | ids are consecutive and never reused |
| Tasks.TaskManager.RotateCurrentRunQueue | src/kernel/task.cpp:275-297 | the rotation of the machine, with the downward search for an occupied level |
| Tasks.TaskManager.SwitchTask | src/kernel/task.cpp:131-138 | a task of the highest occupied level runs afterwards |
| Tasks.TaskManager.Sleep | src/kernel/task.cpp:140-154 | the machine's step; everything stays in order |
| Tasks.TaskManager.SleepId | src/kernel/task.cpp:156-165 | an unknown id is reported and changes nothing |
| Tasks.TaskManager.Wakeup | src/kernel/task.cpp:167-185 | the machine's step; everything stays in order |
| Tasks.TaskManager.WakeupId | src/kernel/task.cpp:187-196 | an unknown id is reported and changes nothing |
| Tasks.TaskManager.SendMessage | src/kernel/task.cpp:198-207 | the message goes to the end of the task's queue, behind all others, and the task is runnable; an unknown id changes nothing |
| Tasks.TaskManager.ReceiveMessage | src/kernel/task.cpp:71-79 | messages come out in the order they went in |
| Tasks.TaskManager.ChangeLevelRunning | src/kernel/task.cpp:247-273 | the machine's step; everything stays in order |
| Tasks.TaskManager.Finish | src/kernel/task.cpp:213-230 | the machine's step: the current task leaves, its code is stored, its waiter is woken |
| Tasks.TaskManager.WaitFinishRound | src/kernel/task.cpp:232-245 | the machine's step: the stored code, or another sleep |
| Messages.QueueAfter | src/kernel/task.cpp:66-79 | only a message sent to a task joins its queue, at the end, and only its own receiving takes one away, the first; a new task has none |
| Messages.ReceivedInOrder | src/kernel/task.cpp:66-79 | over any run of any operations, what a live task had queued and what was sent to it is what it received followed by its queue, in order |
| TaskRuns.Perform | src/kernel/task.cpp:113-297 | any operation of the manager makes the machine's step, and receiving answers the oldest message |
| TaskRuns.Run | src/kernel/task.cpp:113-297 | over any run of the manager itself, the messages a task receives are those sent to it, in the order they were sent, but for those still queued |
| Placement.MarksAfter | src/kernel/task.cpp:140-273 | which tasks are runnable after an operation, and at which level: a wakeup sets the level asked for, or none if it is negative, and makes the task runnable; sending wakes; sleeping, or waiting in vain, stops; an end wakes the waiter; nothing else changes a level or a mark |
| Placement.TasksAfter | src/kernel/task.cpp:126-129 | only creating adds a task, with the next number, level 1, asleep and without messages; only ending removes one, the current |
| Placement.WakeupOrder | src/kernel/task.cpp:167-185 | a task that wakes up comes to stand last in the queue of the level asked for, or of its own |
| Placement.ChangeOrder | src/kernel/task.cpp:247-273 | a task whose level changes comes to stand last in its new queue, or first if it is the current one |
| Placement.OrderAfter | src/kernel/task.cpp:113-297 | no operation changes the order of two tasks in a queue, except that a switch sends the current one to the end |
| ClusterChain.ChainUnique | src/kernel/fat.cpp:69-80 | a chain is determined by its first cluster |
| ClusterChain.ChainDistinct | src/kernel/fat.cpp:69-80 | a chain that ends visits no cluster twice |
| ClusterChain.HeadsDisjoint | src/kernel/fat.cpp:69-80 | in a sound table different files share no cluster |
| ClusterChain.ExtendedChain | src/kernel/fat.cpp:150-169 | the extended chain goes on through the added clusters, every other chain is as it was |
| ClusterChain.ExtendedSound | src/kernel/fat.cpp:150-169 | extending keeps chains finite and disjoint |
| ClusterChain.ExtendCluster | src/kernel/fat.cpp:150-169 | exactly the first n free clusters are appended, in ascending order, to the chain; all other chains and entries are unchanged; the new last cluster is returned; n clusters fewer are free |
| ClusterChain.AllocateClusterChain | src/kernel/fat.cpp:268-282 | a new chain of max(n, 1) clusters that were free; all other chains are unchanged |
| FatContent.NumClusterIsQuotient | src/kernel/fat.cpp:285-287 | the rounded-up quotient is the number of clusters that hold so many bytes |
| FatContent.StoreAppends | src/kernel/fat.cpp:313-318 | storing at the cursor appends to the bytes before it |
| FatContent.FlatByte | src/kernel/fat.cpp:243-266 | byte i of a file is byte i modulo the cluster size of the cluster at that place of the chain |
| FatContent.WriteTotalExact | src/kernel/fat.cpp:301-323 | the count returned by a write is its length iff the bytes fit into the current cluster or end with a cluster |
| FatContent.FiveBytesCountEight | src/kernel/fat.cpp:301-323 | five bytes written where the cluster has room for three are counted as eight |
| FatFile.DirectoryEntry.SetFirstCluster | src/kernel/fat.cpp:293-295 | the low half holds the low 16 bits of a 32-bit cluster number and the high half the high ones, and together they give it back |
| FatFile.AvailableIsTheRest | src/kernel/fat.cpp:248 | the limit of a read is the rest of the file iff the cursor is not beyond the end, where it wraps around |
| FatFile.CursorBeyondTheEnd | src/kernel/fat.cpp:248 | a cursor at 7 in a file of 5 bytes puts no limit on a read of 10 |
| FatFile.FileDescriptor.Read | src/kernel/fat.cpp:243-266 | the next min(len, rest) bytes of the file's content, nothing else in the buffer, and the cursor behind them |
| FatFile.FileDescriptor.Load | src/kernel/fat.cpp:326-339 | the bytes of the content from the given offset on |
| FatFile.FileDescriptor.EnterNextCluster | src/kernel/fat.cpp:303-311 | the next cluster of the chain if there is one; otherwise clusters for all that remains are appended and the cursor goes to the last of them |
| FatFile.FileDescriptor.Write | src/kernel/fat.cpp:284-324 | the exact count; the file ends behind the last byte counted; the bytes follow those written before iff the chain lacks at most one cluster; other files keep their chains and contents; clusters are conserved |
| FatRoundTrip.FitsExactly | src/kernel/fat.cpp:301-319 | a write inside one cluster stores exactly its bytes and allocates at most that cluster |
| FatRoundTrip.WriteChunks | src/kernel/fat.cpp:284-324 | any sequence of writes inside clusters to an empty file leaves exactly their concatenation, in exactly the clusters it needs |
| FatRoundTrip.ReadChunks | src/kernel/fat.cpp:243-266 | reads in any sizes give the content up to where they end |
| FatRoundTrip.RoundTrip | src/kernel/fat.cpp:243-324 | what was written to an empty file, no write crossing a cluster boundary, is what a fresh descriptor reads in pieces of any sizes; the file size is the total |
| FileRegions.OffsetInFile | src/kernel/paging.cpp:140 | whatever address of a region is touched, its page begins inside the file |
| FileRegions.RegionsDisjoint | src/kernel/syscall.cpp:400-404 | no address lies in two regions |
| FileMappings.Task.OpenFile | src/kernel/syscall.cpp:311-321 | the file goes into the lowest free slot, or a new one at the end; mapped regions keep their files |
| FileMappings.Task.DemandPages | src/kernel/syscall.cpp:378-387 | the demand region grows by whole pages at its end |
| FileMappings.Task.MapFile | src/kernel/syscall.cpp:389-406 | whole pages that just hold the file, below everything mapped before, whose alignment and sizes are kept; a bad descriptor changes nothing |
| FileMappings.Task.FindFileMapping | src/kernel/paging.cpp:124-131 | the one region that contains the address, if there is one |
| FileMappings.PreparePageCache | src/kernel/paging.cpp:133-144 | the faulted page holds exactly the file's bytes for its place in the region, and zeros behind the end of the file |
| FileMappings.Task.FaultPage | src/kernel/paging.cpp:227-244 | from any reachable task and any address: the search for a region and the load of its file leave the page with the bytes FileRegions.InitialBytes gives, which is what the kernel's fault handler maps; the page begins inside the file |
| PageContents.NumberOfEntry | src/kernel/paging.hpp:64-90 | splitting a word into the fields of a page-table entry loses nothing of it |
| PageContents.PackedInjective | src/kernel/paging.cpp:133-144 | the words of a page determine its bytes |
| PageContents.PackedByte | src/kernel/paging.cpp:133-144 | read byte by byte, the lowest byte of each word first, the words of a page give its bytes in their order |
| Ring.StoreInv | src/kernel/usb/xhci/ring.cpp:31-55 | no store of the driver touches a slot the controller may take, and publishing comes last |
| Ring.LoadInv | src/kernel/usb/xhci/ring.cpp:31-55 | every load of the controller finds complete TRBs and the current link |
| Ring.DequeuedInOrder | src/kernel/usb/xhci/ring.cpp:31-55 | under any interleaving of single stores and loads, over any number of laps, with at most buf_size - 2 outstanding: the controller dequeues exactly what was pushed, in order, and never follows a stale link |
| Ring.DequeuedFromStart | src/kernel/usb/xhci/ring.cpp:10-55 | the same from an initialized ring |
| Ring.NeverStuck | src/kernel/usb/xhci/ring.cpp:40-55 | a pushed TRB is taken by the controller's next loads, through the link if need be |
| Ring.OneMoreStopsTheController | src/kernel/usb/xhci/ring.cpp:45-52 | the limit is sharp: with one push more the link is overwritten under the controller, which finds nothing to take |
| Ring.Ring.CopyToLast | src/kernel/usb/xhci/ring.cpp:31-38 | exactly the four stores of the machine, the cycle bit last |
| Ring.Ring.Push | src/kernel/usb/xhci/ring.cpp:40-55 | exactly the machine's stores, four, or eight at the end of a lap; the TRB is pushed and its slot returned |
| EventRing.FrontIsNext | src/kernel/usb/xhci/ring.hpp:88-94 | an event is seen iff one was posted and not popped, and it is the oldest of them |
| EventRing.RingIsQueue | src/kernel/usb/xhci/ring.cpp:102-115 | over any interleaving of posting and polling from the empty ring, over any number of laps, the ring delivers and holds what a plain first-in first-out queue does |
| EventRing.EventRing.HasFront | src/kernel/usb/xhci/ring.hpp:88-90 | true iff an event was posted and not popped |
| EventRing.EventRing.Pop | src/kernel/usb/xhci/ring.cpp:102-115 | events are popped in the order posted, across the end of the segment |
| EventRing.EventRing.Process | src/kernel/usb/xhci/xhci.cpp:512-531 | the oldest event is taken iff there is one |
| Ports.Controller.ResetPort | src/kernel/usb/xhci/xhci.cpp:91-113 | a connected port waits if any port is under way and otherwise is the one under reset; a port in a later phase is an error; a disconnected one is left alone |
| Ports.Controller.EnableSlot | src/kernel/usb/xhci/xhci.cpp:115-132 | the phase moves on iff the port is enabled and its reset completed |
| Ports.Controller.AddressDevice | src/kernel/usb/xhci/xhci.cpp:134-167 | the phase moves on iff the slot exists |
| Ports.Controller.OnPortStatusChange | src/kernel/usb/xhci/xhci.cpp:197-210 | the step Handled of that event: a port not connected yet begins or waits, one under reset goes on, any other is an error that changes nothing |
| Ports.Controller.OnTransfer | src/kernel/usb/xhci/xhci.cpp:212-228 | endpoints are configured iff the device has just been initialized and its speed is known |
| Ports.Controller.OnEnableSlotDone | src/kernel/usb/xhci/xhci.cpp:236-241 | the port under way goes on to addressing, and only from the phase before |
| Ports.Controller.OnAddressDeviceDone | src/kernel/usb/xhci/xhci.cpp:242-268 | the turn goes to the lowest waiting port if it is connected, and to none otherwise; the addressed port goes on to its initialization |
| Ports.Controller.OnConfigureEndpointDone | src/kernel/usb/xhci/xhci.cpp:269-281 | the port is configured, and only from the phase before |
| Ports.Controller.OnConfigurePort | src/kernel/usb/xhci/xhci.cpp:440-445 | the step Handled of that event: a port not connected yet begins or waits, any other is left alone |
| Ports.HandledKeeps | src/kernel/usb/xhci/xhci.cpp:91-284 | every event keeps addressing exclusive and moves phases only forward; an event that fails changes nothing |
| Ports.HandledStrands | src/kernel/usb/xhci/xhci.cpp:257-266 | an event strands waiting ports iff it assigns an address to the port under way, of a device that exists, while the lowest waiting port is gone |
| Ports.PortThreeIsStranded | src/kernel/usb/xhci/xhci.cpp:257-266 | ports 2 and 3 wait, port 2 is unplugged, port 1 is addressed: port 3 waits with no port under way |
| Ports.HandledWaiting | src/kernel/usb/xhci/xhci.cpp:91-113 | only a port that was found connected waits |
| Ports.Handle | src/kernel/usb/xhci/xhci.cpp:197-284 | any event is dispatched to its handler: the controller makes the step Handled |
| Ports.Run | src/kernel/usb/xhci/xhci.cpp:91-284 | the controller goes through the steps of its events |
| Ports.RunSafe | src/kernel/usb/xhci/xhci.cpp:91-284 | for any events in any order: a port is resetting, enabling a slot or addressing iff it is the one named, phases only move forward, and if ports stay connected nobody waits while no port is under way |
| PortTurns.ReportedBegins | src/kernel/usb/xhci/xhci.cpp:91-113 | a port reported connected for the first time waits if another port is under way, and otherwise is reset and the one named; one not connected is left alone |
| PortTurns.PhaseAfter | src/kernel/usb/xhci/xhci.cpp:91-284 | a port goes to its next phase, and to no other, exactly by the event its phase waits for |
| PortTurns.ReportedLeave | src/kernel/usb/xhci/xhci.cpp:91-113 | over any run every port that reported to be connected has begun or waits |
| PortTurns.TurnGoesToLowest | src/kernel/usb/xhci/xhci.cpp:257-266 | an address assigned gives the turn to the waiting port with the lowest number, if that one is connected |
| PortTurns.EveryPortGetsItsTurn | src/kernel/usb/xhci/xhci.cpp:91-284 | if ports stay connected, every port that reported to be connected has been reset once as many addresses were assigned as there are ports |
| Bits.BitReverse16Reverses | src/apps/gview/stb_image.h:3952-3959 | the four masked swaps reverse the 16 low bits and clear the others |
| Bits.BitReverseIsCode | src/apps/gview/stb_image.h:3961-3967 | the reversed code, lowest bit first, is the code, highest bit first |
| HuffmanCode.BeginsIsPrefix | src/apps/gview/stb_image.h:4061-4076 | comparing shifted numbers is comparing the stream with the code bit by bit |
| HuffmanCode.PrefixFree | src/apps/gview/stb_image.h:3985-3998 | no bit string begins with two codes |
| HuffmanCode.SomeCode | src/apps/gview/stb_image.h:4068-4076 | a number between the limits for s - 1 and s bits begins with a code of s bits, found at the computed place |
| CanonicalCode.FirstCode | src/apps/gview/stb_image.h:3985-3998 | the first code given out is all zeros |
| CanonicalCode.NextCode | src/apps/gview/stb_image.h:3985-3998 | each code begins right behind the one before it: the next number of the same length, or that number with zeros behind it for the next length in use |
| CanonicalCode.CodesInOrder | src/apps/gview/stb_image.h:3985-3998 | of two codes of one length the earlier symbol's is smaller, and a shorter code precedes every longer one, in the order of bits |
| CanonicalCode.BitsAreRank | src/apps/gview/stb_image.h:3985-4012 | read as a number, the bits of a symbol's code are its rank in the order of lengths and symbols: how many numbers of that many bits begin with the code of a symbol before it |
| CanonicalCode.TwoSymbols | src/apps/gview/stb_image.h:3985-4012 | of two symbols with codes of one bit the first has the code 0 |
| Huffman.FastEntryFinds | src/apps/gview/stb_image.h:4003-4009 | a slot of the fast table names a symbol whose short code the index begins with, or is empty if there is none |
| Huffman.ZHuffman.GiveOutCodes | src/apps/gview/stb_image.h:3981-3999 | the tables by length are those of the canonical code; it is refused iff the lengths leave no room (Kraft's inequality) |
| Huffman.ZHuffman.FillFast | src/apps/gview/stb_image.h:4005-4010 | exactly the slots whose index begins with the code are filled |
| Huffman.ZHuffman.ZBuildHuffman | src/apps/gview/stb_image.h:3969-4014 | success iff the lengths satisfy Kraft's inequality, complete or not, and then each symbol is entered, in the tables by length and, if short, in the fast one, under the bits that are its rank in the order of lengths and symbols, as in section 3.2.2 of RFC 1951 |
| HuffmanDecode.SymbolUnique | src/apps/gview/stb_image.h:4061-4090 | at most one symbol's code begins a stream |
| HuffmanDecode.MatchIsBegins | src/apps/gview/stb_image.h:4083-4085 | masking nine bits and looking at 16 agree on short codes |
| HuffmanDecode.ShortCodesShareNoSlot | src/apps/gview/stb_image.h:4005-4010 | two short codes never claim the same slot |
| HuffmanDecode.ZBuf.FillBits | src/apps/gview/stb_image.h:4042-4049 | more than 24 bits are there afterwards and the stream is the same, continued with zeros only where the input has ended |
| HuffmanDecode.ByteBitsAt | src/apps/gview/stb_image.h:4042-4049 | the stream is the bytes in their order, each from its lowest bit on |
| HuffmanDecode.ZBuf.ZHuffmanDecodeSlowpath | src/apps/gview/stb_image.h:4061-4077 | the symbol whose code begins the stream, or -1 iff there is none, given that no short code does |
| HuffmanDecode.ZBuf.ZHuffmanDecode | src/apps/gview/stb_image.h:4079-4091 | the one symbol whose rank in the order of lengths and symbols the stream's first bits, as many as its length, have, with exactly those bits taken off; -1 and nothing taken iff no symbol's rank is there |
| Graphics.IntersectContains | src/kernel/graphics.hpp:75-87 | the intersection has exactly the common points and no negative size |
| FrameBuffers.CopyAreaContains | src/kernel/frame_buffer.cpp:70-74 | a pixel is copied iff it and its origin are on the buffers and the origin is in the area |
| FrameBuffers.FrameBuffer.Copy | src/kernel/frame_buffer.cpp:59-86 | every such pixel gets the colour of its origin, every other keeps its own |
| Layers.DrawTo | src/kernel/window.cpp:64-86 | pixel by pixel, on and off the screen: an opaque window gives its shadow buffer's colour inside the area; a window with a transparent colour gives its data's colour wherever that is another one, whatever the area is; every other pixel keeps its colour |
| Composition.PaintedInside | src/kernel/layer.cpp:85-90 | inside the area, drawing all layers shows the whole stack |
| Composition.PaintedOutside | src/kernel/layer.cpp:85-90 | outside it only a transparent top window is painted |
| Composition.PointOfDraw | src/kernel/layer.cpp:96-114 | drawing from a layer up is enough inside that layer's opaque window |
| Composition.ShowsIsTopmost | src/kernel/layer.cpp:85-90 | a buffer shows the whole stack iff every pixel has the colour of the highest window that covers it with a colour other than its transparent one |
| Layers.LayerManager.DrawArea | src/kernel/layer.cpp:85-90 | the area shows the whole stack, the rest of the screen is unchanged |
| Layers.LayerManager.DrawWindowArea | src/kernel/layer.cpp:96-114 | the same for a part of one window, painted from its layer up |
| Layers.LayerManager.Move | src/kernel/layer.cpp:116-123 | if the screen showed the whole stack it does so after a window, the mouse included, has moved anywhere: each pixel has the colour of the highest window that covers it and is not transparent there |
| Layers.LayerManager.MoveRelative | src/kernel/layer.cpp:125-132 | the same for a relative move |
| Layers.LayerManager.Redraw | src/kernel/layer.cpp:92-94 | the same after a window's contents changed and it was drawn |
| Layers.LayerManager.RedrawArea | src/kernel/layer.cpp:96-114 | the same if only the changed area is drawn |
| Layers.LayerManager.UpDown | src/kernel/layer.cpp:134-157 | the stack without the layer, with the layer put in at the height asked for |
| Layers.PutAtPlace | src/kernel/layer.cpp:134-157 | the layer is at the height asked for, counted without it, or on top, and in the stack once; below 0 it is not in the stack |
| Layers.PutAtOrder | src/kernel/layer.cpp:134-157 | all others keep their order |
| Layers.LayerManager.Hide | src/kernel/layer.cpp:159-165 | the stack without the layer |
| Layers.ActiveLayer.Activate | src/kernel/layer.cpp:232-253 | the activated window comes to lie right below the mouse, all others keep their order, only the two title bars change, and the screen shows the whole stack |
| Layers.ActiveLayer.CloseLayer | src/kernel/layer.cpp:314-331 | the window is gone, none is active, and the screen shows the rest of the stack; an unknown layer is an error that changes nothing |
| Timers.FiredExactly | src/kernel/timer.cpp:57-83 | what a tick does leaves no choice: an ordinary timer fires as often as it is queued iff it is due, and stays otherwise |
| Timers.TimerManager.Tick | src/kernel/timer.cpp:57-83 | the due ordinary timers are sent in non-decreasing order of their timeouts, each due task timer is replaced by one later one, every timeout left exceeds the tick, and the loop ends although it pushes while it pops |
| Timers.TickKeepsTaskTimers | src/kernel/timer.cpp:57-83 | a tick leaves as many task timers as there were |
| Timers.Run | src/kernel/timer.cpp:53-83 | over any run each ordinary timer fires exactly once, at the first tick at or after its timeout that follows its being added, or is still waiting; the task timers are as many as were added |
| Timers.NextTimeout | src/kernel/timer.cpp:67-71 | the task timer runs out at the tick it is due at and is due again two ticks later |
| Timers.RunTicks | src/kernel/timer.cpp:53-83 | with one task timer, tasks are switched at its first timeout and at every second tick from it on, and at no other |
| Pipes.PipeDescriptor.Write | src/kernel/terminal.cpp:868-881 | all bytes go into the stream, in full pieces of 16 and a last one with the rest |
| Pipes.PipeDescriptor.FinishWrite | src/kernel/terminal.cpp:883-889 | the end of the stream is announced behind every byte |
| Pipes.PipeDescriptor.ReadStep | src/kernel/terminal.cpp:829-866 | the next bytes of the stream, in order; the end is reported only after it was announced and every byte was read |
| Pipes.Run | src/kernel/terminal.cpp:829-889 | under any interleaving the answers are together a prefix of what was sent, and if one was empty they are all of it |

## Left out

- Paging.Machine.CopyPageMaps: asks for a present entry along the first path at every level above 1; without one the source runs off the end of a function that returns a value.
- Kernels.Kernel.Start: only the branch for a cached image; loading an ELF file for the first time is not part of this model, the frames of cached images are given. Images keep clear of the argument and stack pages (ClearOfStack), which LoadELF does not check: with a page there StackSetup.SetupArgsAndStack says that ownership is out of order, and the end of the application would free a frame of the image. The arguments fit into their page; if MakeArgVector refuses them the source returns in the same way, without giving anything back.
- Runs.Run: loads and stores are of aligned 8-byte words in the upper half, made in user mode; kernel-mode stores bypass write protection in the source and are not modelled. Each operation is one step. An application whose fault cannot be served ends.
- Kernels.Kernel.HandlePageFault: faults of the kernel's own half are not modelled; the contents of the open files are part of an event, FileMappings.Task.FaultPage gets them from the FAT file.
- FileMappings.Task.FaultPage: asks that a mapped file did not become shorter than it was when it was mapped.
- Scheduler.StepInv: the idle task neither sleeps nor ends; context switches are changes of the current task, sections with interrupts disabled are single steps; contexts, stacks and open files of tasks are not modelled.
- WaitFinish.NoLostFinish: one waiter for each task, nobody waits for a code that was handed over already, and only a task itself sleeps inside the wait.
- ClusterChain.ExtendCluster: asks for as many free clusters as are wanted; the source's scan has no bound and would run off the table.
- FatFile.FileDescriptor.Write: asks for the free clusters the write takes on its way; the memory behind the caller's buffer is a function, since some writes read beyond their length.
- FatFile.FileDescriptor.Read: asks for a cursor not beyond the end of the file, and for a file not extended since the descriptor reached the end of its chain, whose cursor the source does not renew.
- FatFile.FileDescriptor.Load: asks for an offset not beyond the end of the file, which its caller keeps to; FatFile.AvailableIsTheRest says what the limit is otherwise.
- FatRoundTrip.RoundTrip: writes inside clusters only; FatFile.FileDescriptor.Write states what all other writes do. It starts from a file without clusters; an entry reused by CreateFile keeps a stale first cluster in the source.
- FileMappings.Task.MapFile: asks for room for the file below the regions mapped before; the source's subtraction would wrap around.
- FileMappings.PreparePageCache: asks that the page begins inside the file, which FileMappings.Task.FaultPage shows.
- FAT clusters are an array of byte sequences; the address arithmetic of GetClusterAddr, directories, file names and CreateFile are left out.
- Ring.DequeuedInOrder: memory is sequentially consistent; doorbells and the contents of TRBs are not modelled.
- EventRing.EventRing.Pop: the controller posts an event in one step and keeps a slot free.
- Ports.RunSafe: port numbers of reporting ports are at least 1; rings, doorbells and device contexts are not modelled, register values are parts of the events.
- Huffman.ZHuffman.ZBuildHuffman: at most 288 lengths of at most 15, which is what the callers of the source pass.
- HuffmanDecode.ZBuf.ZHuffmanDecode: numbers stand for machine words, with bitwise operations defined on them; the rest of inflate and of stb_image.h is left out.
- Layers.LayerManager.DrawWindowArea: asks for a layer in the stack and for an area without negative sizes; for a hidden layer the source copies an uninitialized rectangle.
- Layers.LayerManager.Redraw: asks that the window that changed has no transparent colour; through one, what lay below before the change stays on the screen.
- Layers.LayerManager.RedrawArea: the same.
- Layers.ActiveLayer.Activate: the bottom layer is opaque and fills the screen, the only window with a transparent colour is on top, both stay where they are in the stack; all buffers have the same pixel format; the window message it sends is left out.
- Layers.ActiveLayer.CloseLayer: the layer is neither the bottom one nor the mouse, both of which every other operation relies on.
- FrameBuffer::Move, window decorations, fonts, the mouse and keyboard drivers.
- Timers.TimerManager.Tick: the queue is a multiset and the earliest timer any with the least timeout, so ties are resolved arbitrarily; the tick counter does not wrap.
- Pipes.Run: read lengths are at least 1, nothing is written after FinishWrite; the sleeping of the reader is part of the scheduler's model.
- Assembly, segments, interrupts, TLB invalidation, PCI, ACPI, LAPIC, logging, the small applications.
- MemoryStat, which counts whole words of the bitmap.
