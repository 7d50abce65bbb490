# scull storage core in Dafny

This project models the in-memory store of the scull character device from
ch3/scull.c and ch3/scull.h.

The device keeps its data in a chain of quantum sets. Each quantum set owns an
optional array of `qset` slots. Each slot owns an optional quantum of `quantum`
bytes. Byte offset `f_pos` lives in item `f_pos / (quantum * qset)` of the
chain, in slot `rest / quantum` of that item, at offset `rest % quantum` of that
slot, where `rest = f_pos % (quantum * qset)`. On every device the operations
produce, nodes, slot arrays and quanta are allocated only when a write first
touches them. Unallocated parts are holes.

The model has five modules:

- `ScullTypes` holds the data shapes, the defaults 4000 and 1000, and the offset
  translation. It also defines two abstract views of a device. `ByteAt(d, p)` is
  the byte stored at offset `p`, if any. `Blocks(chain)` counts the live
  allocations.
- `ScullSpec` describes `scull_follow`, `scull_read` and `scull_write` as
  functions from one device snapshot to the next, and proves their properties.
- `Scull` holds the class `Device`. Its methods update the chain, size and
  geometry in place, with loops where the source has them. Each method is
  proved equal to its function in `ScullSpec`. The class also covers
  `scull_trim` and the truncating branch of `scull_open`.
- `ScullRoundTrip` models a caller that repeats short writes and short reads.
  It proves that what the write loop stores, the read loop returns.
- `ScullFindings` and `ScullScenarios` hold the discrepancy at ch3/scull.c:126
  and a few concrete cases.

Side effects the core depends on become parameters of each call:

- `avail` is the number of allocation requests `kmalloc` grants during the
  call. The request after those fails.
- `interrupted` stands for `mutex_lock_interruptible` returning non-zero.
- `fault` stands for `copy_to_user` or `copy_from_user` failing.
- User buffers are plain byte sequences.

Two details of `scull_read` shape the model:

- `scull_read` finds its node through the allocating `scull_follow`
  (ch3/scull.c:118), so `ReadSpec` may append nodes. `ReadAllocatesNothing`
  proves that it does not on any device whose size lies inside its chain,
  which every operation preserves. `Scull.Device.Read` therefore promises an unchanged state.
- `scull_read` copies from `data[s_pos] + rest` rather than `+ q_pos`
  (ch3/scull.c:126). This is logged under Findings. The model reads at `q_pos`,
  as the write path does (ch3/scull.c:175).

## Model

| member | source | states |
|---|---|---|
| ScullTypes.FreshNodes | ch3/scull.c:79 | a node that `scull_follow` allocates is zeroed: no slot array and no next node |
| ScullTypes.EmptySlots | ch3/scull.c:159-165 | a newly allocated slot array has exactly `qset` entries, all empty |
| ScullTypes.Locate | ch3/scull.c:113-116 | the coordinates satisfy `item * quantum * qset + slot * quantum + offset == f_pos` and `rest == slot * quantum + offset`, with `slot < qset` and `offset < quantum` |
| ScullTypes.LocateOffset | ch3/scull.c:150-153 | the translation is a bijection: coordinates in range translate back to exactly the offset they name |
| ScullTypes.ItemBelow | ch3/scull.c:113 | an offset below `k` whole items falls in one of the first `k` items |
| ScullTypes.QuantumEndInItem | ch3/scull.c:172-174 | a copy clamped to the end of its quantum ends inside its item |
| ScullTypes.FreshNodesKeepBytes | ch3/scull.c:71-93 | appending zeroed nodes neither adds nor removes a stored byte |
| ScullTypes.BlocksAppend | ch3/scull.c:33-43 | the live allocations of a concatenated chain are the sum of those of its parts |
| ScullTypes.BlocksFresh | ch3/scull.c:75-88 | `k` fresh nodes own exactly `k` allocations |
| ScullTypes.BlocksUpdate | ch3/scull.c:159-171 | replacing one node changes the chain's allocations by the difference between the two nodes |
| ScullTypes.QuantaUpdate | ch3/scull.c:166-171 | filling an empty slot adds one allocated quantum, and replacing a quantum keeps the count |
| ScullTypes.QuantaNone | ch3/scull.c:164 | a zeroed slot array owns no quanta |
| ScullSpec.FollowChain | ch3/scull.c:71-93 | follow only appends fresh empty nodes at the tail. It reaches item `n` exactly when `n < length + avail`, and then the chain has `max(length, n + 1)` nodes. On failure it has used every granted allocation and keeps the nodes it appended |
| ScullSpec.FreshNodesWellFormed | ch3/scull.c:79 | appending zeroed nodes keeps the device well formed |
| ScullSpec.FreshNodesCover | ch3/scull.c:71-93 | appending nodes keeps the size inside the chain |
| ScullSpec.CopyOut | ch3/scull.c:126 | the copy out returns `n` bytes, byte `i` being byte `offset + i` of the quantum |
| ScullSpec.ReadSpec | ch3/scull.c:95-136 | Read appends at most zeroed nodes and changes nothing else. It returns -ERESTARTSYS exactly when interrupted. It returns -EFAULT only on a fault, and always on a fault when the quantum at `f_pos` inside the size exists; on either error the position is unchanged. At or past the size it returns 0. Otherwise the count is clamped to the request, the size and the rest of the quantum, the position advances by the count, and the data has that length |
| ScullSpec.ReadAllocatesNothing | ch3/scull.c:118 | on a device whose size lies inside its chain, the allocating walk in read leaves the device exactly as it was |
| ScullSpec.ReadReturnsStoredBytes | ch3/scull.c:126-131 | every byte a successful read returns is the byte stored at the offset it was read from |
| ScullSpec.ReadEmptyIffHole | ch3/scull.c:120-122 | inside the size, a non-empty read returns 0 exactly when the quantum holding the offset is a hole |
| ScullSpec.ReadLength | ch3/scull.c:109-111 | on stored data, read returns exactly `min(count, size - f_pos, quantum - q_pos)` |
| ScullSpec.CopyIn | ch3/scull.c:175 | the copy in replaces bytes `q_pos .. q_pos + n` of the quantum with the buffer's first `n` bytes and keeps every other byte |
| ScullSpec.WriteSpec | ch3/scull.c:138-189 | Write returns -ERESTARTSYS exactly when interrupted. It returns -ENOMEM exactly when the allocator grants fewer requests than the missing nodes, slot array and quantum need; then size and position are unchanged. On success it copies `min(count, quantum - q_pos)` bytes, advances the position by that count, sets the size to the larger of the old size and the new position, and keeps the geometry |
| ScullSpec.StoreInItem | ch3/scull.c:159-184 | once the item is reached, the store allocates the slot array and then the quantum on demand. It fails with -ENOMEM exactly when the remaining grants are too few, and fails with -EFAULT exactly on a fault with enough grants; otherwise it copies the clamped count and grows the size to the new position |
| ScullSpec.WriteStoresBytes | ch3/scull.c:175-180 | after a successful write, the `ret` bytes written are stored at `f_pos .. f_pos + ret` |
| ScullSpec.StoreBytesAt | ch3/scull.c:175 | the store leaves byte `p - f_pos` of the buffer at each offset `p` it reports written |
| ScullSpec.WriteFrame | ch3/scull.c:138-189 | a write changes no stored byte outside the range it reports written; a failed write changes none |
| ScullSpec.StoreFrameAt | ch3/scull.c:166-178 | the store changes no stored byte outside its range, offset by offset |
| ScullSpec.WriteThenRead | ch3/scull.c:95-189 | reading back the range one successful write reported returns exactly the bytes written and the position the write left |
| ScullSpec.WriteKeepsCover | ch3/scull.c:182-184 | a write grows the size only to the end of bytes lying in its item, so the size stays inside the chain |
| ScullSpec.WriteAllocations | ch3/scull.c:155-171 | every allocation a write was granted is owned by the chain afterwards, on success and on failure, so nothing leaks |
| ScullSpec.StoreAllocations | ch3/scull.c:159-171 | the slot array and the quantum the store allocates are owned by the chain afterwards |
| Scull.Device.constructor | ch3/scull.c:249-252 | a new device is empty, has size 0 and the default geometry 4000 by 1000 (ch3/scull.h:8-9) |
| Scull.Device.WithGeometry | ch3/scull.c:249-252 | a device built from other module parameters is empty and has that geometry |
| Scull.Device.Trim | ch3/scull.c:28-49 | trim frees every node, slot array and quantum (the blocks released equal the chain's live allocations), then leaves an empty chain, size 0 and the module's geometry |
| Scull.Device.Open | ch3/scull.c:51-65 | opening write-only truncates the device as trim does. An interrupted wait returns -ERESTARTSYS with nothing changed. Any other access mode changes nothing |
| Scull.Device.Follow | ch3/scull.c:71-93 | the walk's loop produces exactly the chain, the outcome and the allocation count of `FollowChain`, and keeps the size inside the chain |
| Scull.Device.Read | ch3/scull.c:95-136 | the method's result, data and new position are those of `ReadSpec`, and the device state is unchanged |
| Scull.Device.Write | ch3/scull.c:138-189 | the method's new state, result and position are those of `WriteSpec`, and the size stays inside the chain |
| Scull.Device.Store | ch3/scull.c:159-184 | the method's new state, result and position are those of `StoreInItem`, and the size stays inside the chain |
| ScullRoundTrip.WriteAll | ch3/scull.c:172-184 | with an allocator that grants every request (`AllocsNeeded`), a caller repeating short writes until the buffer is done stores every byte at its offset. It keeps every other stored byte and ends with size `max(size, f_pos + length)` |
| ScullRoundTrip.ReadAll | ch3/scull.c:123-131 | a caller repeating short reads gets at most the bytes it asked for |
| ScullRoundTrip.TurnStores | ch3/scull.c:166-180 | with every allocation granted, one write copies a non-empty prefix of the buffer, stores it and keeps every other byte |
| ScullRoundTrip.StoresConcat | ch3/scull.c:179-180 | two writes of adjacent ranges together store the whole buffer and keep everything outside it |
| ScullRoundTrip.ReadStep | ch3/scull.c:120-131 | one read over stored bytes returns a non-empty prefix of them, and the device it leaves still stores the rest |
| ScullRoundTrip.ReadAllStored | ch3/scull.c:95-136 | where bytes are stored inside the size, the read loop returns exactly those bytes |
| ScullRoundTrip.WriteAllThenReadAll | ch3/scull.c:95-189 | writing a buffer in a loop and reading it back in a loop from the same offset reconstructs the buffer exactly |
| ScullFindings.CopyOutAsWritten | ch3/scull.c:126 | the copy as written, starting at `rest`, stays inside the quantum exactly when `rest + count <= quantum` |
| ScullFindings.AsWrittenAgreesOnlyInFirstSlot | ch3/scull.c:113-126 | the copy as written agrees with the copy at `q_pos` exactly when the offset is in slot 0 of its set; in any other slot it runs past the quantum |
| ScullFindings.ReadSecondQuantumOutOfBounds | ch3/scull.c:126 | with quantum 4, qset 2 and "ABCDEFGH" stored, reading 2 bytes at offset 6 returns "GH" in the model, while the copy as written starts past the end of the quantum |
| ScullScenarios.TenBytes | ch3/scull.c:95-189 | on quantum 4 and qset 2, writing ten bytes in a loop gives size 10 and the read loop returns them. A read at the end returns 0. A 4-byte read at offset 6 stops at the quantum boundary and returns 2 bytes |
| ScullScenarios.ReadInSecondQuantum | ch3/scull.c:123-131 | a read of 4 bytes at offset 6 in the second quantum returns its last two bytes |
| ScullScenarios.WriteInFirstItem | ch3/scull.c:150-158 | with quantum 4000 and qset 2, a write at offset 1000 allocates at most the first node and copies up to 3000 bytes |

## Left out

- The device lock is not modelled. Each operation is one atomic step, and an interrupted wait is the `interrupted` parameter. Concurrent interleavings are not modelled.
- User memory is not modelled. `copy_to_user` and `copy_from_user` are a byte sequence plus a `fault` flag. A partial copy fault is not distinguished from a full one.
- `kmalloc` is an oracle that grants `avail` requests per call. `kfree` is not modelled: `Scull.Device.Trim` counts the blocks it releases instead.
- A newly allocated quantum holds zeros. In the source its contents are uninitialised. No property depends on those bytes.
- Machine integer widths are not modelled: `int` quantum and qset, `unsigned long` size, `loff_t` position, `size_t` count. Offsets and counts are `nat`, so negative positions and overflow of `quantum * qset` or `*f_pos + count` are outside the model.
- Pointer identity and aliasing are not modelled. The chain is a sequence, and a node's `next` is its successor in that sequence.
- Scull.Device.Trim: does not model the `dptr->data = NULL` store on a node that is being freed, because the node is gone afterwards.
- `module_param` parsing is not modelled. The module parameters are the constructor's arguments, kept as `paramQuantum` and `paramQset`.
- `scull_init_module`, `scull_cleanup_module` and `scull_setup_cdev` (ch3/scull.c:201-267) are not modelled. Device numbers and cdev registration are outside the storage core. Only the initial geometry is kept, in the constructors.
- `scull_release` (ch3/scull.c:67-69) does nothing and is not modelled.
- `access_key` is not modelled, because no operation reads it.
- ScullSpec.ReadSpec: allows the read's walk to append nodes, as the code does. It does not promise that nothing is allocated. `ScullSpec.ReadAllocatesNothing` proves that on every device the operations produce.
- ScullSpec.StoreInItem: on -EFAULT the quantum is left untouched, while `copy_from_user` (ch3/scull.c:175) may already have written part of `q_pos .. q_pos + count` and zero-filled the rest. That a failed write changes no stored byte (`ScullSpec.WriteFrame`) is therefore a property of this all-or-nothing fault abstraction.
- Scull.Device.WithGeometry: requires positive quantum and qset. The module parameters are plain `int`s, and a zero or negative value makes the divisions at ch3/scull.c:113-116 and 150-153 undefined, so such geometries are outside the model.
- ScullRoundTrip.WriteAll: models the write loop only with an allocator that grants every request; a loop that stops on -ENOMEM is not modelled.
- ScullRoundTrip.ReadAll: only bounds the length. What the loop returns is stated by `ScullRoundTrip.ReadAllStored`.

## Findings

| source | as written | input that shows it | evidently intended | confidence | as-written member | corrected member |
|---|---|---|---|---|---|---|
| ch3/scull.c:126 | `copy_to_user(buf, dptr->data[s_pos] + rest, count)` starts at `rest`, the offset inside the whole item | quantum 4, qset 2, "ABCDEFGH" stored, read 2 bytes at offset 6: `rest` is 6, so the copy starts past the end of the 4-byte quantum "EFGH" | start at `q_pos` (`dptr->data[s_pos] + q_pos`), as write does at line 175, returning "GH" | high, not executed | ScullFindings.ReadSecondQuantumOutOfBounds | ScullSpec.ReadReturnsStoredBytes |
