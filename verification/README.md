# Verified models of the Android-on-e-ink stack

Dafny models of the parts of this port whose correctness depends on whole runs rather than on
single calls: the Binder kernel driver, the kernel log device, the e-ink hardware composer, and
the service manager with its parcel codec. `dafny verify dfyconfig.toml` checks everything.

Each component follows the same plan. A specification gives the state as a value and each
operation as a function on it; invariants are proved to be kept by every operation, and theorems
about all runs follow. Code that updates things in place is then a class or a loop over arrays,
with methods proved to make exactly the step the specification names, or proved directly against
an independent description of the result.

- **Binder transactions** (`Transactions`, `CallStacks`, `TransactionSafety`,
  `TransactionTheorems`, `OneWayOrder`, `Delivery`, `SelfTargetedRun`, `BinderDriver`). Threads of many
  processes call each other; calls nest through the `from_parent` and `to_parent` links. The
  central argument is that the calls of one chain form a line, so the thread serving the top call
  always has a caller with that same call on top. The property has one exception, a call that is
  routed back to the very thread making it; that exception is characterised exactly and shown to
  be reachable. `Delivery` says where work ends up, who is told what, and in which order.
  `BinderDriver` works on thread and transaction structs linked by pointers, as the driver does, and
  is proved to refine the specification.
- **Binder buffers** (`BufferList`, `FreeTree`, `BufferSpec`, `BufferAllocator`). Buffers tile the
  mapped region, free neighbours are always merged, the free tree is ordered by sizes that are not
  stored but follow from the neighbours, a page is mapped exactly when something needs it, and the
  space for one-way calls is conserved. Addresses and sizes are those of a 32-bit kernel.
- **Binder references** (`NodeRefs`, `NodeRefProofs`, `NodeRefTheorems`, `RefLedger`, `RefDriver`). Counts on
  nodes and refs, descriptors, and the INCREFS/ACQUIRE/RELEASE/DECREFS commands to the owner. Each
  count the driver itself takes is a claim with a holder: the buffer aimed at the node, an object
  in a buffer, or the context manager. `RefLedger` keeps books on what processes took, gave back and
  acknowledged over whole runs, and compares. `RefDriver` works on node and ref structs.
- **Binder buffers and nodes together** (`BufferTargets`). Transactions and counts as one system:
  a buffer's pointer to its target node is never left dangling.
- **Log device** (`LogEntries`, `LogRing`, `LogSpec`, `LogTheorems`, `LoggerDevice`, `RingSize`).
  The ring of bytes refines an append-only log. `LogSpec.dfy` holds two modules, `LogSpec` and
  `LogRefinement`.
- **E-ink composer** (`Pixels`, `Composition`, `Pictures`, `Screens`, `ComposerDevice`). Source-driven drawing, a
  row-copy shortcut, an accumulated rectangle and a row-by-row comparison, against a per-pixel
  composition of the whole stack. `Pictures` says what that composition looks like: which way a
  transform turns a layer, where its pixels go, which layer is seen. `Screens` says how the panel
  changes from call to call, and exactly which frames leave it wrong; `ComposerDevice` does it on
  arrays.
- **Service manager** (`Parcels`, `CommandStream`, `ServiceRegistry`). The parcel codec, the
  command stream from the driver's read to the parser, and the registry.

Where code and comments differ, the code is modelled. The comment above `create_log` asks for a
power of two larger than the largest entry; that is too weak, and `RingSizeExactly` says by how
much. The logs actually created are large enough.

A kernel lock or mutex serialises each of the kernel components, and the user-space ones have one
thread, so operations are atomic steps. Failures of memory, pages and user copies, and the
translation of objects in a transaction, are parameters of the operations.

## Model

| member | source | states |
|---|---|---|
| TransactionTheorems.StepSafe | patches/kernel/binder.c:1317-1428 | every operation that is not a self-targeted call keeps the whole invariant and reaches none of the "bad transaction stack", lost-reply or BUG_ON branches |
| TransactionTheorems.RunSafe | patches/kernel/binder.c:1170-1238 | the same over every run, from any state that satisfies the invariant |
| TransactionTheorems.EmptyInv | patches/kernel/binder.c:1317-1428 | a driver with no processes satisfies the invariant |
| TransactionTheorems.CallersWait | patches/kernel/binder.c:1341-1378 | in every run a thread whose top transaction is incoming has a caller, another thread, whose top is that same transaction; no BUG_ON of binder_pop_transaction and no bad target stack is ever met |
| TransactionTheorems.SelfTargetedExactly | patches/kernel/binder.c:1341-1428 | after a call that is let through, an immediate reply by the sender meets the bad target stack if and only if the call was routed to the sender itself |
| SelfTargetedRun.SelfTargetedHappens | patches/kernel/binder.c:1341-1428 | from the empty driver, a concrete run in which nothing was self-targeted before leads to a self-targeted call that the driver accepts, and the reply after it meets the bad target stack |
| TransactionTheorems.CallReturns | patches/kernel/binder.c:1685-1708 | whatever happens between a call and its reply, the reply or its failure reaches the thread that made the call, and that thread's stack is then what it was before the call |
| TransactionTheorems.ReplyReturns | patches/kernel/binder.c:1341-1370 | one reply step reaches the caller recorded in the transaction and restores its recorded parent |
| TransactionTheorems.ReplyRestores | patches/kernel/binder.c:1170-1238 | popping a transaction restores the caller's stack to the call's parent, for replies and for reported failures |
| TransactionTheorems.StepRecord | patches/kernel/binder.c:1474-1500 | no operation changes who made a transaction or what it was made for |
| CallStacks.Linear | patches/kernel/binder.c:1399-1428 | of two calls of one chain the earlier has a call made on its behalf no later than the other, so a chain is a line |
| CallStacks.CallerWaits | patches/kernel/binder.c:1341-1370 | the stack invariant gives that the caller of a call on top has that call on top |
| CallStacks.OutermostIsCaller | patches/kernel/binder.c:1422-1426 | the walk for a thread of the target process ends at the caller of some call of the same chain, in that process |
| CallStacks.OutermostIsFirst | patches/kernel/binder.c:1422-1426 | that call is the first of the chain made by a thread of that process, and where the walk finds none there is none |
| Delivery.TakenByOwner | patches/kernel/binder.c:1399-1440 | in every fair run a call, one-way or not, is taken only by a thread of the process that owns its node, its buffer lies in that process, and a reply waits with its buffer for the thread it answers |
| Delivery.GoesToWaiter | patches/kernel/binder.c:1410-1436 | a two-way call goes to the thread of the target process that waits longest up its chain, and to the process only if none waits |
| Delivery.FreedExactly | patches/kernel/binder.c:1891-1931 | in every fair run a thread can free exactly the buffers of its own process whose transaction has been delivered; a refusal changes nothing |
| Delivery.CallAnswered | patches/kernel/binder.c:1372-1428 | a call is let through exactly when there is a node, no fault, and, if two-way, no call of the sender unanswered; the sender finds one completion at the end of its list, or an error code and nothing else changed |
| Delivery.ReplyAnswered | patches/kernel/binder.c:1704-1758 | a reply is let through exactly when its sender serves the call on top of its stack, and the sender is told the outcome once |
| Delivery.ErrorsTold | patches/kernel/binder.c:2165-2183 | errors are told and forgotten together, or kept, and nothing else changes |
| Delivery.ReadOrder | patches/kernel/binder.c:2226-2258 | a read takes the head of the thread's own list, and of its process's only if that is empty and the thread idle |
| Delivery.ListsAreQueues | patches/kernel/binder.c:1704-1708 | every step takes at most the head of a list and otherwise only appends |
| OneWayOrder.OneWayInOrder | patches/kernel/binder.c:1693-1703 | in every run the one-way calls a node has received are the first ones sent to it, in the order they were sent |
| OneWayOrder.OneAtATime | patches/kernel/binder.c:1905-1930 | at most one one-way call to a node is released and not freed, and a parked one always has an earlier released one ahead of it |
| OneWayOrder.TakenIsOldest | patches/kernel/binder.c:2449-2460 | a one-way call that is taken is the oldest still pending at its node |
| BinderDriver.Driver.FindCaller | patches/kernel/binder.c:1422-1426 | the loop over callers finds the outermost thread of the target process |
| BinderDriver.Driver.Transaction | patches/kernel/binder.c:1372-1500 | makes the specification's Send step, whose receiver, errors and completions CallAnswered, GoesToWaiter and TakenByOwner give, and keeps the invariant unless the call is self-targeted |
| BinderDriver.Driver.QueueCall | patches/kernel/binder.c:1685-1708 | the new transaction struct is on top of the sender's stack, points back at the sender and at what was on top before, and no other struct changes; read as values this is the specification's call |
| BinderDriver.Driver.QueueOneWay | patches/kernel/binder.c:1693-1707 | the new struct has no sender; it is last in its node's line if the node was busy and otherwise the last item of the owner's list; no stack changes; read as values this is the specification's one-way call |
| BinderDriver.Driver.PopTransaction | patches/kernel/binder.c:1170-1185 | given that the transaction is on top of its caller, as CallersWait has it, the caller is back at what was on top when it made the call, exactly that struct is freed, and no pointer to it is left |
| BinderDriver.Driver.SendReply | patches/kernel/binder.c:1341-1370 | makes the specification's Reply step and keeps the invariant, so no error branch for corrupt stacks is taken |
| BinderDriver.Driver.Answer | patches/kernel/binder.c:1341-1370 | replying or failing to reply puts both threads back on the structs they were on before the call was made and before it was taken |
| BinderDriver.Driver.QueueReply | patches/kernel/binder.c:1685-1692 | the caller's stack is its parent's again, and the answer, a fresh struct from nobody, is the last item on the caller's own list |
| BinderDriver.Driver.SendFailedReply | patches/kernel/binder.c:1187-1238 | a caller that waits always has a free error slot, so the failure is reported: its first slot has the code and its stack is the call's parent |
| BinderDriver.Driver.ThreadRead | patches/kernel/binder.c:2226-2258 | makes the specification's Read step, own list first, and keeps the invariant |
| BinderDriver.Driver.Hand | patches/kernel/binder.c:2449-2460 | a call goes on top of the reader, remembers what was there, and keeps its sender; a reply or one-way call is freed and the stack stays |
| BinderDriver.Driver.FreeBuffer | patches/kernel/binder.c:1891-1931 | makes the specification's FreeBuffer step; BUG_ON(!has_async_transaction) never fires |
| BinderDriver.Driver.PassOn | patches/kernel/binder.c:1920-1926 | the oldest call in the node's line goes to the end of the freeing thread's list and the rest of the line keeps its order; the node stops being busy exactly when nobody waits |
| BufferSpec.OverflowCaught | patches/kernel/binder.c:668-683 | in 32-bit arithmetic the check "sum smaller than a part" holds exactly when the rounded sizes overflow |
| BufferSpec.OverQuotaExact | patches/kernel/binder.c:675-683 | the quota test refuses exactly the one-way calls that do not fit the space left |
| BufferSpec.AlignIsFirst | patches/kernel/binder.c:668-669 | sizes are rounded to the first multiple of the word size |
| BufferSpec.CarvedFits | patches/kernel/binder.c:714-751 | a buffer handed out starts on a word, has room for its data and for its offsets at the first word after the data, and exceeds the request by less than a header and three words |
| FreeTree.DescendFinds | patches/kernel/binder.c:685-712 | the descent returns a smallest free buffer that fits, and fails exactly when none fits |
| FreeTree.InsertOrdered | patches/kernel/binder.c:466-497 | insertion by computed size keeps the tree ordered and adds exactly one member |
| FreeTree.RemoveOrdered | patches/kernel/binder.c:843-864 | removal keeps the order and takes out exactly one member |
| BufferList.SplitLinked | patches/kernel/binder.c:733-739 | splitting a buffer leaves a list that tiles the region |
| BufferList.UnlinkLinked | patches/kernel/binder.c:766-809 | removing a header leaves a list that tiles the region |
| BufferList.WholePages | patches/kernel/binder.c:811-842 | whether a buffer is allocated matters to exactly the whole pages between its header and the next |
| BufferList.SplitPages | patches/kernel/binder.c:714-739 | which pages a split allocation needs, headers that straddle pages included |
| BufferList.UnlinkPages | patches/kernel/binder.c:756-809 | the pages dropped with a header are exactly those it shared with no other header |
| BufferSpec.CarvePagesOk | patches/kernel/binder.c:714-739 | the pages mapped for an allocation are unmapped before it and are exactly those newly needed |
| BufferSpec.CarvedList | patches/kernel/binder.c:720-751 | allocation keeps the tiling, leaves no two free neighbours, and keeps every header on a word boundary |
| BufferSpec.CarvedQuota | patches/kernel/binder.c:740-751 | allocation keeps quota plus charges equal to half the region |
| BufferSpec.CarvedTreeAfter | patches/kernel/binder.c:730-739 | after allocation the tree holds exactly the free buffers, ordered by their new sizes |
| BufferSpec.ReleasedList | patches/kernel/binder.c:843-864 | freeing and merging both sides keeps the tiling, leaves no two free neighbours, and keeps every header on a word boundary |
| BufferSpec.ReleasedQuota | patches/kernel/binder.c:811-842 | freeing gives back exactly the charge of a one-way buffer |
| BufferSpec.ReleasedTree | patches/kernel/binder.c:843-864 | after freeing and merging the tree holds exactly the free buffers, ordered by their new sizes |
| BufferSpec.AllocThenFree | patches/kernel/binder.c:650-865 | freeing undoes allocation, split and merge included, up to what the header remembers of the request |
| BufferSpec.UnlinkUndoesSplit | patches/kernel/binder.c:720-809 | removing the header a split made restores the list |
| BufferSpec.AllFreeIsOne | patches/kernel/binder.c:2920-2930 | when every buffer is free there is one, spanning the region, with only the first page mapped and the whole quota back |
| BufferAllocator.Allocator.constructor | patches/kernel/binder.c:2920-2930 | the mapped space starts as one free buffer with its page mapped and half the region as quota |
| BufferAllocator.Allocator.MapPages | patches/kernel/binder.c:548-648 | maps exactly the range, which is never already mapped; a failure part of the way restores the old page set |
| BufferAllocator.Allocator.UnmapPages | patches/kernel/binder.c:627-642 | unmaps exactly the range, all of which was mapped |
| BufferAllocator.Allocator.FindBestFit | patches/kernel/binder.c:685-712 | returns a smallest free buffer that fits, or none exactly when none fits |
| BufferAllocator.Allocator.AllocBuf | patches/kernel/binder.c:650-754 | without a page fault fails exactly for an unmapped region, overflow, quota or lack of a fitting buffer, changing nothing; otherwise carves a best fit that starts on a word and has room for data and offsets, and keeps every invariant |
| BufferAllocator.Allocator.DeleteFreeBuffer | patches/kernel/binder.c:766-809 | removes a header and exactly the pages only it needed |
| BufferAllocator.Allocator.Merge | patches/kernel/binder.c:843-864 | the two merges, with list, tree and pages kept in step |
| BufferAllocator.Allocator.FreeBuf | patches/kernel/binder.c:811-865 | the buffer is released and merged, its pages and quota returned, every invariant kept |
| BufferAllocator.Allocator.ReleaseAll | patches/kernel/binder.c:3130-3146 | freeing everything, in any order, ends with one free buffer, one page and the whole quota |
| NodeRefProofs.StepKeeps | patches/kernel/binder.c:926-1002 | every counting operation keeps the invariant, and none uses a node after it is freed, giving back a buffer's count included |
| NodeRefProofs.OwnerHolds | patches/kernel/binder.c:1494-1499 | what the driver itself holds a count on is a node that is there and has an owner |
| NodeRefProofs.IncFine | patches/kernel/binder.c:926-959 | a ref's count makes the owner believe, or be about to be told, what the counts now say; a refusal changes nothing |
| NodeRefProofs.DecStrongFine | patches/kernel/binder.c:961-1002 | a strong count given back while the node has refs never frees it |
| NodeRefProofs.DecWeakFine | patches/kernel/binder.c:961-1002 | a ref taken off frees the node only when nothing holds it and the owner believes nothing, and otherwise leaves the owner told or the work queued |
| NodeRefProofs.DropFine | patches/kernel/binder.c:961-1002 | a buffer's count given back frees the node only when that was the last thing holding it |
| NodeRefProofs.NewKeyUnused | patches/kernel/binder.c:1052-1073 | a new descriptor is unused and every smaller one from its start is in use, so the BUG() on a duplicate is unreachable |
| NodeRefProofs.RecountRefs | patches/kernel/binder.c:1115-1168 | what a change of one ref's counts does to the number of strong refs of its node |
| NodeRefTheorems.CountsAgree | patches/kernel/binder.c:1090-1168 | in every reachable state a node's internal count is the number of refs holding it strongly and its local counts are the claims of buffers and of the context manager plus the acknowledgements due; no ref and no claim dangles, a process has one ref per node, an unwanted node its owner still believes in is queued, and so is one its owner has not been told about |
| NodeRefTheorems.ClaimsLast | patches/kernel/binder.c:1891-1931 | a claim on a node lasts until it is given back or the owner dies |
| NodeRefTheorems.CommandsNest | patches/kernel/binder.c:2279-2347 | over any run the commands for a node nest properly, INCREFS, ACQUIRE, RELEASE, DECREFS, strictly alternating, and leave the owner believing what the flags say |
| NodeRefTheorems.StepTells | patches/kernel/binder.c:2279-2347 | a step sends a command for a node exactly when its flags change, and in the way the command stands for |
| NodeRefTheorems.FreedWhenBalanced | patches/kernel/binder.c:961-1002 | a node is freed only when no ref points at it, when nothing of the driver held it but the claim just given back, and, unless its owner is gone or going, when its commands have cancelled out |
| NodeRefTheorems.WorkDrains | patches/kernel/binder.c:2279-2347 | a queued node is dealt with after at most two commands, with the flags then true; RELEASE and DECREFS never overtake an acknowledgement still due |
| NodeRefTheorems.GoneForGood | patches/kernel/binder.c:961-1002 | nothing is ever sent for a node that is gone |
| RefLedger.LedgerAgrees | patches/kernel/binder.c:1115-1168 | after every run a ref's count of each kind is the number of counts taken less those given back since it was made, and never negative |
| RefLedger.GoesWhenSettled | patches/kernel/binder.c:1139-1168 | a count is given back exactly when one of its kind is outstanding, and a ref goes, unless deleted outright, exactly with the last count of both kinds |
| RefLedger.TakenExactly | patches/kernel/binder.c:1115-1136 | a count is refused exactly when it would be the first of its kind for the ref, there is no list to tell the owner by, and the owner does not know already |
| RefLedger.ZeroIsManager | patches/kernel/binder.c:1052-1059 | in every run descriptor 0 leads to the context manager or to a dead one, and a first ref to the manager is descriptor 0 where that is free |
| RefLedger.ManagerLives | patches/kernel/binder.c:2704-2741 | in every run the context manager is a live node with an owner, a process can become it exactly when there is none, and its death makes room |
| RefLedger.AwaitedExactly | patches/kernel/binder.c:1828-1883 | after every run an acknowledgement is awaited exactly when its command was sent and not acknowledged since |
| RefLedger.AwaitedKeeps | patches/kernel/binder.c:2279-2347 | until then the node stays, unless its owner dies, and the opposite command is not sent |
| RefDriver.FreeDesc | patches/kernel/binder.c:1052-1059 | the walk over descriptors in order finds the least free one and where it goes |
| RefDriver.Driver.GetRef | patches/kernel/binder.c:1024-1088 | returns the process's one ref for the node, made if need be, with both indexes kept in step |
| RefDriver.NodeStruct.Inc | patches/kernel/binder.c:926-959 | exactly one of the three counts goes up, none for a weak count of a ref or a refused strong one; the node is queued only onto a list that was given |
| RefDriver.NodeStruct.Dec | patches/kernel/binder.c:961-1002 | one count goes down, or none; a node is let go only without refs and local counts and when its owner, if any, believes in nothing |
| RefDriver.NodeStruct.Tell | patches/kernel/binder.c:2279-2347 | a command is given exactly when a flag changes, and only then does the work item stay |
| RefDriver.Driver.IncRef | patches/kernel/binder.c:1115-1136 | makes the specification's step and keeps the invariant; exactly the count asked for goes up by one, and a refused one changes nothing |
| RefDriver.Driver.DecRef | patches/kernel/binder.c:1139-1168 | refuses exactly when there is no such count; otherwise it goes down by one, the ref is deleted when both are gone, and the invariant is kept |
| RefDriver.Driver.DeleteRef | patches/kernel/binder.c:1090-1113 | the node is still there when the ref comes off its list, and no dangling ref is left |
| RefDriver.Driver.ReadWork | patches/kernel/binder.c:2279-2347 | one command, or the work item and an unwanted node go |
| RefDriver.Driver.Done | patches/kernel/binder.c:1828-1883 | an acknowledgement that is due gives back the local count; one that is not is refused |
| RefDriver.Driver.OwnerDies | patches/kernel/binder.c:3033-3048 | a node of a dead owner goes if unreferenced and otherwise stays for its refs |
| RefDriver.Driver.BecomeContextManager | patches/kernel/binder.c:2704-2741 | at most one context manager node, which starts out held and believed in |
| RefDriver.Driver.Hold | patches/kernel/binder.c:1494-1499 | a buffer or object takes its count on the node, with structs, indexes and claims in step |
| RefDriver.Driver.Drop | patches/kernel/binder.c:1240-1253 | a claim given back decrements the node it names, which is there, and frees it if it was the last |
| BufferTargets.BuffersStep | patches/kernel/binder.c:1474-1500 | a step on transactions makes at most one buffer, aimed where the call was, frees at most the one named, and never re-aims one |
| BufferTargets.RunSafe | patches/kernel/binder.c:1240-1253 | with counts and transactions as one system, every run keeps exactly one claim per buffer aimed at a node and follows no pointer to a freed node |
| BufferTargets.TargetsLive | patches/kernel/binder.c:1891-1931 | in every run from nothing the target node of every live buffer is there, has an owner and a local strong count, so reading and freeing the buffer dereference a live node |
| LogRing.MaskIsModulus | patches/kernel/logger.c:87-91 | masking with size minus one is the modulus, for every power of two |
| LogRing.IsBetweenExactly | patches/kernel/logger.c:377-391 | is_between holds exactly when the cyclic distance is positive and at most the length |
| LogRing.NextEntryLands | patches/kernel/logger.c:349-364 | the walk over raw headers lands on the entry that counting entries gives |
| LogRing.FixUpLands | patches/kernel/logger.c:400-412 | a pointer is moved exactly when it would be lapped, to an entry boundary past the new write head and not past the old |
| LogRing.WriteSpares | patches/kernel/logger.c:450-477 | a write leaves alone all bytes less than a ring away |
| LogRefinement.FixUpStands | patches/kernel/logger.c:400-412 | after making room the ring still stands for the log, with every pointer clear of the bytes to come |
| LogRefinement.AbandonedStands | patches/kernel/logger.c:450-477 | a write that fails in the middle changes no entry any reader can still reach |
| LogRefinement.CommittedStands | patches/kernel/logger.c:450-484 | a committed write is the log with one entry more |
| LogTheorems.StepSound | patches/kernel/logger.c:278-341 | every operation keeps cursors inside the log, which only grows |
| LogTheorems.ReaderSeesLog | patches/kernel/logger.c:278-341 | over any run with any readers a reader moves only forward, over every entry once: delivered whole, decoding to what was written, or overrun, or flushed, or written by another and not for its eyes |
| LogTheorems.TakenInOrder | patches/kernel/logger.c:278-341 | what a reader is given comes in the order written, none twice |
| LogTheorems.HeadLosesOnly | patches/kernel/logger.c:400-412 | over any run the head of the log passes only entries that were overrun or flushed |
| LogTheorems.NewReaderMisses | patches/kernel/logger.c:501-540 | a reader that opens the log at any time starts at the first entry neither overrun nor flushed, with version 1 and the access asked for |
| LogEntries.UserBytesDecode | patches/kernel/logger.c:196-240 | what is delivered to a reader of version 1 or 2 decodes, field by field at its own offset, to the length, process, thread, time, euid from version 2 on, and payload of the entry written |
| LogSpec.ReadingExactly | patches/kernel/logger.c:278-341 | a read gives the next entry the reader may see, by anybody with full access and otherwise by its own user, if it fits; blocks exactly when there is none; and keeps it when it does not fit |
| RingSize.RingSizeExactly | patches/kernel/logger.c:700-704 | a power of two above the largest entry suffices exactly when it is at least twice the largest entry |
| RingSize.SmallIsNot | patches/kernel/logger.c:400-412 | in a ring of 8192 bytes, the one size in between, a log and an entry exist for which a pulled pointer lands off every entry boundary |
| LoggerDevice.Log.Offset | patches/kernel/logger.c:87-91 | the masked offset is the position modulo the size |
| LoggerDevice.Log.EntryHeader | patches/kernel/logger.c:125-138 | a header that spans the end is put together |
| LoggerDevice.Log.NextEntryOffset | patches/kernel/logger.c:349-364 | the loop is the walk of the specification |
| LoggerDevice.Log.FixUpReaders | patches/kernel/logger.c:400-412 | head and readers make room, and the ring still stands for the log |
| LoggerDevice.Log.Write | patches/kernel/logger.c:419-484 | on success the log has one entry more, cut to 4076 bytes; on failure none; the value returned is exactly the part of the payload before the end of the ring, which is less than was written when the entry wraps |
| LoggerDevice.Log.NextOffsetBy | patches/kernel/logger.c:246-264 | finds the first entry from the reader on by the given user |
| LoggerDevice.Log.Read | patches/kernel/logger.c:278-341 | one whole entry that decodes to what was written and that the reader may see, or nothing; the reader moves past what it is given |
| LoggerDevice.Log.EntryBytes | patches/kernel/logger.c:196-240 | the bytes got out of the ring, across its end, decode to the entry in the layout of the reader's version |
| LoggerDevice.Log.Open | patches/kernel/logger.c:501-540 | a new reader starts at the head |
| LoggerDevice.Log.Flush | patches/kernel/logger.c:651-661 | every reader and the head move to the write head |
| LoggerDevice.Log.LogLen | patches/kernel/logger.c:623-636 | the bytes of exactly the entries the reader has yet to pass |
| LoggerDevice.Log.NextEntryLen | patches/kernel/logger.c:637-650 | the length of the entry the reader would be given |
| LoggerDevice.Log.SetVersion | patches/kernel/logger.c:596-608 | versions 1 and 2 only |
| LoggerDevice.Log.PerformAll | patches/kernel/logger.c:278-484 | any interleaving of operations leaves the ring standing for the log those operations give |
| Pixels.OpaqueShortcut | gralloc_eink/src/hwcomposer_eink.c:385-444 | the opaque shortcut computes what the blending formula does, in every mode and format |
| Pixels.ClearShortcut | gralloc_eink/src/hwcomposer_eink.c:385-444 | skipping a transparent pixel is what the formula does for every destination exactly when blending by coverage or when the colour is too dark to register |
| Pixels.NeverSaturates | gralloc_eink/src/hwcomposer_eink.c:424-443 | premultiplied colours never reach the clamp |
| Pixels.ByteOrder | gralloc_eink/src/hwcomposer_eink.c:351-364 | the same colour in any byte order gives the same pixel, which keeps its top 5, 6 and 5 bits in red, green, blue order |
| Pixels.ScaleNearest | gralloc_eink/src/hwcomposer_eink.c:407-431 | scaling by alpha rounds to nearest |
| Pixels.PackUnpack | gralloc_eink/src/hwcomposer_eink.c:351-364 | unpacking and packing a 16-bit pixel is the identity |
| Composition.PlaceIsBijection | gralloc_eink/src/hwcomposer_eink.c:560-574 | each transform is a bijection from the crop onto a rectangle of its placed size |
| Pictures.Orientation | gralloc_eink/src/hwcomposer_eink.c:560-574 | where the first pixel goes and where a step right and a step down lead, for each transform: quarter turns are clockwise and its opposite, mirror images reverse columns only or rows only |
| Pictures.QuarterTurns | gralloc_eink/src/hwcomposer_eink.c:560-574 | two quarter turns are the half turn, three the opposite quarter turn, four nothing, and the half turn is both mirror images |
| Pictures.TexelAt | gralloc_eink/src/hwcomposer_eink.c:551-588 | a pixel of a buffer is so many strides and pixels in, whatever its format |
| Pictures.PixelGoes | gralloc_eink/src/hwcomposer_eink.c:551-591 | each pixel of the crop decides exactly the panel pixel it is placed at, counted from the corner of the display frame, and shows there if solid |
| Pictures.ElsewhereStays | gralloc_eink/src/hwcomposer_eink.c:551-591 | a layer changes no other pixel |
| Pictures.TopmostShows | gralloc_eink/src/hwcomposer_eink.c:668-713 | of the layers solid at a pixel the last in the list is seen, and otherwise the last background |
| Pictures.BackgroundIsGrey | gralloc_eink/src/hwcomposer_eink.c:321-326 | a background is the mean of its channels in both bytes of every pixel |
| Pictures.Replaces | gralloc_eink/src/hwcomposer_eink.c:385-404 | without blending or without alpha a layer replaces what is under it |
| Pictures.MixesByAlpha | gralloc_eink/src/hwcomposer_eink.c:385-444 | with blending, formats with alpha mix by their fourth byte |
| Pictures.MixIsAverage | gralloc_eink/src/hwcomposer_eink.c:424-443 | coverage blending is the average weighed by alpha to within one, premultiplied blending the sum with what alpha leaves to within one half |
| Pictures.TouchedIsHull | gralloc_eink/src/hwcomposer_eink.c:702-710 | what a frame touches is the least rectangle around the display frames of the layers drawn |
| Pictures.AccumulatedIsHull | gralloc_eink/src/hwcomposer_eink.c:728-742 | what is refreshed is the least rectangle around that and what was refreshed before |
| Composition.FitIsContained | gralloc_eink/src/hwcomposer_eink.c:704-745 | layers that fit their frames draw nothing on the panel outside the region copied |
| Composition.ContainedIsWhite | gralloc_eink/src/hwcomposer_eink.c:668-745 | if nothing is drawn outside the region, the frame is white there |
| Composition.SomethingIsTooWide | gralloc_eink/src/hwcomposer_eink.c:551-591 | there is a well-formed layer of that kind, so the failing run below exists |
| Composition.TooWideSpills | gralloc_eink/src/hwcomposer_eink.c:551-591 | a crop wider than its display frame is drawn on a pixel outside the rectangle counted as touched |
| Screens.FrameSound | gralloc_eink/src/hwcomposer_eink.c:717-779 | a frame that draws nothing outside the rectangle it leaves behind leaves the whole panel showing its stack, and white outside that rectangle |
| Screens.RunSound | gralloc_eink/src/hwcomposer_eink.c:608-791 | the same over every run of frames, blanks and wakes |
| Screens.FitsAreTidy | gralloc_eink/src/hwcomposer_eink.c:704-745 | layers that fit their display frames never draw outside the rectangle, whatever came before |
| Screens.WhiteBeyond | gralloc_eink/src/hwcomposer_eink.c:717-742 | outside the accumulated rectangle the panel is white |
| Screens.HarmlessExactly | gralloc_eink/src/hwcomposer_eink.c:717-791 | whatever its buffers hold, a frame is shown on every visible pixel, and so is every tidy frame after it, if and only if it draws nothing on the panel outside the rectangle it leaves behind, or it is the full frame of a wake that is directly followed by the periodic full one |
| Screens.FullTwiceHarmless | gralloc_eink/src/hwcomposer_eink.c:747-752 | two full frames in a row make good whatever the first drew |
| Screens.WakeIsFull | gralloc_eink/src/hwcomposer_eink.c:854-869 | however wrong the panel is, the first frame that paints after waking is a full one and puts every pixel right |
| Screens.BlankIsStill | gralloc_eink/src/hwcomposer_eink.c:646-656 | while the display is blanked no frame changes anything |
| Screens.DotLeavesStale | gralloc_eink/src/hwcomposer_eink.c:717-779 | a pixel left outside the rectangle outlasts the next frame that is not full, though that frame fits |
| Screens.SpillHarms | gralloc_eink/src/hwcomposer_eink.c:717-779 | a frame that spills is wrong at once, or makes a later frame that fits wrong |
| Composition.SendRegionCovers | gralloc_eink/src/hwcomposer_eink.c:156-192 | the region sent is the least that covers the one asked for, starts on a multiple of 8, and ends on one or at the edge |
| ComposerDevice.TooWideIsStale | gralloc_eink/src/hwcomposer_eink.c:658-791 | two calls of Compose on a white panel of two pixels, the first frame too wide and the second one that fits, end with a framebuffer that differs from the stack shown |
| ComposerDevice.BesideThePanel | gralloc_eink/src/hwcomposer_eink.c:511-540 | every plain 16-bit layer to the right of the panel with a visible row has its rows copied with a negative length |
| ComposerDevice.ClippedOnce | gralloc_eink/src/hwcomposer_eink.c:511-540 | clipping once picks the pixels that checking each would, and copying them is blending them |
| ComposerDevice.Composer.constructor | gralloc_eink/src/hwcomposer_eink.c:1105-1107 | the cached copy starts as what the framebuffer holds |
| ComposerDevice.Composer.ClipOnce | gralloc_eink/src/hwcomposer_eink.c:513-523 | the eight adjustments give the intersection of crop, buffer and panel |
| ComposerDevice.Composer.Blit | gralloc_eink/src/hwcomposer_eink.c:511-540 | the row copy leaves every visible pixel as the per-pixel composition has it and touches no other |
| ComposerDevice.Composer.RowWalk | gralloc_eink/src/hwcomposer_eink.c:560-574 | the start and step of a row agree at every pixel with the closed form whose sense Orientation gives |
| ComposerDevice.Composer.BlendRows | gralloc_eink/src/hwcomposer_eink.c:551-591 | the source-driven walk blends every covered visible pixel exactly once, where PixelGoes puts it, and touches no other |
| ComposerDevice.Composer.ComposeLayer | gralloc_eink/src/hwcomposer_eink.c:446-595 | both paths put the layer over every visible pixel; a layer that cannot be drawn changes nothing |
| ComposerDevice.Composer.ComposeAll | gralloc_eink/src/hwcomposer_eink.c:658-713 | the shadow is the whole stack on white, and the rectangle and dirty flag are those of the layers drawn |
| ComposerDevice.Composer.CopyDiffering | gralloc_eink/src/hwcomposer_eink.c:761-779 | exactly the rectangle is brought up to date in framebuffer and copy, and a change is reported exactly when a pixel differed |
| ComposerDevice.Composer.Compose | gralloc_eink/src/hwcomposer_eink.c:658-791 | the arrays make the step the screen makes; blanked or clean frames do nothing; an update is sent exactly when a visible pixel changed, is the least aligned region around what is refreshed, covers every pixel that changed, and is full exactly for the first, each sixtieth and a wake |
| ComposerDevice.Composer.Blank | gralloc_eink/src/hwcomposer_eink.c:854-869 | waking asks for one whole-panel frame |
| ComposerDevice.Composer.Perform | gralloc_eink/src/hwcomposer_eink.c:608-791 | after any calls the framebuffer shows, on every visible pixel, the stack of the last frame that painted while awake, if layers fit their frames or at least draw nothing outside the rectangle; copy and framebuffer agree throughout |
| ComposerDevice.Composer.FullAmongSixty | gralloc_eink/src/hwcomposer_eink.c:747-752 | among any sixty updates in a row one is a full update of the whole panel |
| Parcels.OffsetsOrdered | servicemanager/binder.c:480-494 | offsets strictly increase and name disjoint objects inside the data |
| Parcels.WireFormat | servicemanager/binder.c:480-558 | items lie one after the other from word boundaries on, byte for byte in the format of their kind, lowest byte first, and each object is where its offset says |
| Parcels.Parcel.constructor | servicemanager/binder.c:434-451 | an empty parcel, or overflow when the offsets do not fit |
| Parcels.Parcel.Take | servicemanager/binder.c:453-465 | used plus available bytes stays the same, and a size that does not fit overflows |
| Parcels.Parcel.PutUint32 | servicemanager/binder.c:496-501 | appends the word to what the parcel holds, or overflows |
| Parcels.Parcel.PutString16 | servicemanager/binder.c:535-558 | appends the string up to its NUL, or overflows; one too long is sent as no string |
| Parcels.Parcel.PutRef | servicemanager/binder.c:517-533 | appends the handle and its offset, or overflows; a null one has no offset |
| Parcels.Parcel.GetUint32 | servicemanager/binder.c:604-608 | the next item if it is a word; zero and overflow at the end |
| Parcels.Parcel.GetString16 | servicemanager/binder.c:610-617 | the next item if it is a string, with its NUL |
| Parcels.Parcel.GetRef | servicemanager/binder.c:619-647 | the next item if it is a handle; overflow and nothing more to read where no offset names an object |
| Parcels.SendAndReceive | servicemanager/binder.c:425-647 | every sequence of words, NUL-free strings and non-null handles comes back unchanged if it fits, and it fits exactly when data and offsets have room |
| CommandStream.ReadWork | patches/kernel/binder.c:2226-2258 | commands delivered and work left are all there was, in order; a read ends at the first command that ends one and otherwise goes on while a transaction would fit |
| CommandStream.CodeTellsSize | servicemanager/binder.c:200-303 | each command's code is its number in the protocol with the size of the operands that follow |
| CommandStream.CountWords | patches/kernel/binder.c:2307-2325 | a node is named by its address and then its cookie |
| CommandStream.ThreadRead | patches/kernel/binder.c:2147-2183 | errors, the completion a failed reply leaves included, go first and alone; with room for a transaction an empty read is returned only to a thread told to return; a thread request overwrites the first word |
| CommandStream.Parse | servicemanager/binder.c:200-303 | the parser handles exactly the commands a stream encodes, in order, with their operands |
| CommandStream.ReadAndParse | patches/kernel/binder.c:2386-2480 | what is handled is what was delivered if and only if no thread request was written over it |
| ServiceRegistry.NamesOnce | servicemanager/service_manager.c:173-197 | each name is listed once, and the names listed are those ever added |
| ServiceRegistry.CurrentIsLast | servicemanager/service_manager.c:120-154 | the handle current for a name is that of the last event under it, and none after a death |
| ServiceRegistry.FlagIsFirst | servicemanager/service_manager.c:173-197 | whether isolated users may have a service is as its first registration said |
| ServiceRegistry.ShownIsPrefix | servicemanager/service_manager.c:72-79 | what is compared of a name is all of it before its first NUL |
| ServiceRegistry.Same16 | servicemanager/service_manager.c:72-79 | equality up to the first NUL |
| ServiceRegistry.Registry.MayRegister | servicemanager/service_manager.c:81-93 | root, the system, and the pairs of the table |
| ServiceRegistry.Registry.Find | servicemanager/service_manager.c:107-118 | finds the entry of that name if there is one |
| ServiceRegistry.Registry.Drop | servicemanager/service_manager.c:120-128 | an entry gives back its handle, keeping acquires less releases equal to the entries holding each handle |
| ServiceRegistry.Registry.Death | servicemanager/service_manager.c:120-128 | the death callback is recorded and the entry emptied, whichever handle it was linked for |
| ServiceRegistry.Registry.Lookup | servicemanager/service_manager.c:135-154 | the handle last added since the name's last death callback, withheld from isolated users by the flag of its first registration |
| ServiceRegistry.Registry.AddService | servicemanager/service_manager.c:156-202 | accepts exactly valid names and handles of permitted users; an override releases the old handle before it acquires the new one; the ledger of references stays balanced |
| ServiceRegistry.Registry.NameAt | servicemanager/service_manager.c:252-263 | counting up from 0 enumerates each name once and then fails |

## Left out

- Thread exit and process release while transactions are in flight: they drop work items and change the call-stack statement.
- Object translation, file descriptors, priorities, security hooks, statistics and debug output of the driver: environment or bookkeeping. A failure to translate is the `fault` parameter.
- Death notifications in the kernel: only their command in the stream is modelled.
- Red-black rebalancing: free buffers are a plain search tree, refs by descriptor a sorted list; both are proved ordered.
- Threads, transactions, nodes and refs are structs reached through pointers; work lists, buffers and the one-way state of a node are sequences and maps of values, so aliasing among those is not captured.
- BufferTargets.TargetsLive: a process dies only once no buffer is aimed at its nodes; what binder_deferred_release does to buffers still aimed at them is not modelled. A handle to a node whose owner is gone is refused, as the code refuses it.
- Which of a process's lists a node's work item is on: only whether it is on one.
- BufferAllocator.Allocator.AllocBuf: one page failure per call, at a chosen page; kmalloc failure is not modelled.
- LoggerDevice.Log.constructor: asks for a ring of at least twice the largest entry, which create_log does not check; RingSize.RingSizeExactly shows that nothing less will do, and the logs created are 256 KiB.
- Blocking and waking of readers and of Binder threads: a read that would block is a result.
- ComposerDevice.Composer.Compose: asks that a row copy of 16-bit pixels not have a negative length, which the code passes to memcpy unchecked and BesideThePanel shows to be possible; and does not claim a refresh after every wake, because the request is dropped by a frame that changes nothing.
- Transforms that combine a flip with a rotation by 90 degrees are drawn as if there were none, as the code does; 32-bit overflow of layer coordinates is not modelled.
- Framebuffer memory is an array of rows, so a byte offset that runs from one row into the next is not expressible; nothing is written there.
- The vsync thread, nudges, fences, timing counters and composition from prepare.
- Parcels.Parcel.constructor: asks that four times the number of offsets not exceed 32 bits. Beyond that the product wraps in the code, and offsets and data would share memory, which two arrays do not express.
- Parcels.Write: inherits that bound on the number of offsets.
- Parcels.SendAndReceive: inherits that bound on the number of offsets.
- Parcels.Parcel.GetString16: says nothing of a string that was not put, whose length word is used as it comes, wrapping in 32 bits.
- Parcels.Parcel.PutRef: a null handle round-trips as zero but ends what can be read; the round trip is stated for handles that are not null.
- bio_put_obj and bio_put_string16_x differ from their modelled counterparts in a constant and in widening bytes.
- CommandStream.Parse: calls no handler; the commands are returned in the order they would be handled. The reply to clearing a death notification, which the service manager never asks for, is not in the stream.
- ServiceRegistry.Registry.MayRegister: the table of permitted names is a parameter, not the list in the source, and a name is taken to end where its length says.
- Memory allocation failure in the service manager, and svcmgr_handler's dispatch, which only calls what is modelled.
- gralloc wrapper, other kernel patches, probes, shims, scripts and the front light app: I/O or single steps.
