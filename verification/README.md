# IPO_OS: file system, heap, terminal and disk editor

A Dafny model of four parts of IPO_OS, with proofs about every call and every sequence of calls:

* **IPO_FS**, the block file system of the kernel: bitmaps, inode table, three-tier block map, directories as slot
  logs, paths, and create, open, read, write, delete and rename.
* **kmalloc**, the first-fit kernel heap with its block headers in the heap itself.
* **The terminal's scrollback**: two line buffers around a screen of 23 rows.
* **The block layer of `disk_editor.py`**, a second implementation of the same block map.

## How it is built

Each part has two layers. One is a specification on values: functions and the lemmas about them. The other follows the
code step by step: classes whose methods edit a disk of 512-byte blocks, an array of heap bytes or an array of screen
cells, with the loops of the original. Every method is proved to leave exactly the state, and to return exactly the
result, that the specification gives.

| part | specification on values | code in place |
|---|---|---|
| bytes, bitmaps, layout | `Bytes`, `Bitmaps`, `Layout` | `Layout` (sizing loop), `IpoFs` |
| inodes and block map | `Volume`, `BlockMap`, `Inodes`, `Device`, `OnDisk` (values as they lie on disk) | `IpoFs` |
| read and write | `FileData`, `Transfer` (rounds of the copying loops), `EmptyWrite` | `IpoFs` |
| directories | `Directory`, `DirMap` | `IpoDir` |
| paths | `Paths`, `PathLaws`, `DotDot` | `PathText`, `IpoPath` |
| calls, tree, runs | `Api`, `Owners`, `Tree`, `TreePaths`, `VolTree`, `Calls`, `Dotless`, `PathEffects`, `Runs`, `Outcomes`, `Isolation`, `Format`, `FormatTable`, `Conservation`, `Lifecycle`, `Leaks`, `Orphans`, `DotlessMoves`, `Unrooted`, `IntoItself` | `IpoApi`, `IpoFormat` |
| heap | `HeapBlocks`, `HeapOutcomes` | `Kmalloc` |
| terminal | `Scrollback`, `ConsoleKeys` | `Terminal` |
| disk editor | `DiskEditor` | `DiskImage` |

A volume value `Vol` holds the allocation bits, the inode slots and the data blocks. `P(v, ino, k)` is the pointer that
an inode holds at key `k`: a direct slot, the indirect block, a slot of it, the double-indirect block, a slot of that,
or a leaf. `Own` says that all these pointers, of all inodes, name different blocks of the data area whose bits are
set. It is stated of a table of inodes, so that it also holds in the middle of a call, when the inode being edited is
ahead of its slot on disk. `TreeOf` reads the volume as a tree of directories, `TreeInv` is the tree invariant, and
`FsInv` joins the two with the condition on stored directories.

What the functions of the specification mean is stated apart from their bodies: when each call succeeds and what it hands
back in `Outcomes`, `HeapOutcomes` and `Inodes`, what each part of a path does in `PathLaws` and `DotDot`, what each key
does in `ConsoleKeys`, and where bytes and bits lie on the disk in `OnDisk` and `FormatTable`.

## Premises

* Block reads and writes inside the file system succeed, and `fs_size_blocks` is below 2^31.
* The layout is good: every inode has its slot inside the table and every data block its bit. `Layout.FormatLayout`
  says exactly when format delivers this. The kernel's own format of 10000 blocks and 1024 inodes does not
  (`Layout.KernelFormat`).
* `offset + size < 2^32` in reads and writes. Sizes of zero are modelled, with their wrap-around.
* Paths are C strings: no NUL inside.
* The tree properties have two premises more, on which ownership of blocks and isolation do not depend. Create is
  called for files, because directories made by create have no dot slots (`Tree.CreateKeeps` is an if and only if).
  And a directory is not renamed to a fresh name inside itself, where the code has no test (`Calls.RenameKeepsIff` is
  an if and only if). `Dotless` and `DotlessMoves` say what create, delete and rename keep on volumes with such
  directories; `Orphans.RunOrphans`, `Unrooted.RunUnroots` and `IntoItself.RenameBreaks` run the calls into the
  failures from a formatted volume.
* Runs start from any volume with the invariant. Format makes the root and "/app"; volumes with more directories with
  dots come from elsewhere, as from the disk editor, and are covered by the same theorems (`IntoItself.RunsWithDir`).
* Rename follows ".." links in a loop that need not end where they form a cycle. `IpoApi.Rename` asks that it ends for
  the two paths at hand; on every tree it does (`IpoApi.TreeTestStops`).
* Heap requests do not wrap when the header and the space in use are added, and no cut leaves a rest smaller than a
  header. `Kmalloc.CutTilesIff` shows that the second is exactly what is needed, and `HeapBlocks.TwelvesLegal` that
  requests in multiples of 12 meet it.
* The disk editor is given a disk with enough free blocks; how many suffice is proved.

## Where the code differs from what one might expect

* `free_inode` never frees the double-indirect tree (`Inodes.FreeCompleteIff`, and `Leaks.DoubleLeaks` for a run that
  loses a block so); the disk editor's delete does (`DiskEditor.SameFreeingIff`).
* A write of zero bytes at offset 0 goes through all blocks of the map, because the last block index wraps around. It
  can leave direct blocks beyond the size, which `free_inode` then misses (`EmptyWrite.EmptyWriteBoundedIff` says
  exactly when, `Leaks.EmptyWriteLeaks` gives a run).
* Rename stores the new parent into slot 1 of a moved directory, which in a directory made by create is its second
  entry (`DotlessMoves.RenameSoundIff` says exactly when that does harm).
* The inode table is sized for 76 bytes an inode but stores 6 inodes to a block (`Layout.TableFits`).
* The sizing loop of format does not settle when the space to share is 1 modulo 4097; one data block is then without a
  bit (`Layout.SizeBitmap`).
* Reuse of a heap block leaves the mark of its release in place, so a reused block can never be released again
  (`HeapBlocks.RunAt`).
* The directory size never shrinks, so "empty" in delete means that no child was ever added. A directory without dot
  slots passes that test with two children in it (`Orphans.SizeTest`).

## Model

| member | source | states |
|---|---|---|
| `Bitmaps.BitAtSet` | lib/c/file_system/ipo_bitmap.c:7-49 | setting bit i and reading bit j behave as a set of numbers, through the byte, block and bit split |
| `Bitmaps.SetBitFrame` | lib/c/file_system/ipo_bitmap.c:24-49 | setting a bit changes no block but the one that holds it |
| `Bitmaps.SetBitDelta` | lib/c/file_system/ipo_bitmap.c:37-40 | the byte changes by nothing or by 2^k: the arithmetic form of the or and and-not masks |
| `Bitmaps.BitsSet` | lib/c/file_system/ipo_bitmap.c:24-49 | the bitmap region read as a list of bits changes at one index |
| `Layout.FixpointUnique` | lib/c/file_system/ipo_api.c:23-31 | b = ceil((T-b)/4096) has at most one solution, and one exactly when T mod 4097 is not 1 |
| `Layout.SizeBitmap` | lib/c/file_system/ipo_api.c:23-31 | from 1, at most 8 rounds reach that solution; otherwise exactly one data block is left without a bit; with fewer than two blocks to share no data block is left, in spite of wrapped differences |
| `Layout.SlotInTable` | lib/c/file_system/ipo_inode.c:10-12 | inode i lies inside the table exactly when i is at most 6 times its blocks |
| `Layout.TableFits` | lib/c/file_system/ipo_api.c:21 | the table of ceil(76n/512) blocks holds all n inodes exactly when it has a block for every six; always up to 12, never from 55 on |
| `Layout.FormatLayout` | lib/c/file_system/ipo_api.c:18-46 | it succeeds if and only if there are ten blocks and two to share; then the regions are disjoint and in order, and the layout is good if and only if T mod 4097 is not 1 and the table has a block for every six inodes |
| `Layout.KernelFormat` | lib/c/file_system/ipo_api.c:18-46 | for 10000 blocks and 1024 inodes the slot of inode 913 is the first data block |
| `Device.DecodePut` | lib/c/file_system/ipo_inode.c:8-28 | an inode written to slot j of a block is read back from it, and every other slot is unchanged |
| `Device.SetBlockBit` | lib/c/file_system/ipo_inode.c:79-99 | a bit set in the block bitmap on disk is that bit of the volume and nothing else |
| `Device.WriteSlot` | lib/c/file_system/ipo_inode.c:19-28 | writing an inode slot on disk replaces that inode of the volume and nothing else |
| `Device.WriteData` | lib/c/file_system/ipo_inode.c:79-93 | writing a data block on disk replaces that block of the volume and nothing else |
| `OnDisk.UsedPlace` | lib/c/file_system/ipo_bitmap.c:7-49 | an inode or data block is in use exactly when its bit, bit i mod 8 of byte i / 8 of the bitmap with the low bit first, is set |
| `OnDisk.InodePlace` | lib/h/file_system/ipo_fs.h:31-39 | the fields of inode n at their byte positions in slot (n - 1) mod 6 of its block |
| `OnDisk.EntryPlace` | lib/h/file_system/ipo_fs.h:41-47 | the fields of a directory entry at their byte positions |
| `OnDisk.FilePlace` | lib/c/file_system/ipo_inode.c:101-182 | byte o of a file read off the raw disk, by following the words of the inode and of one or two pointer blocks |
| `Volume.FirstFree` | lib/c/file_system/ipo_inode.c:79-93 | the allocation scan returns the least free index, or the length when every one is taken |
| `Volume.AllocTakes` | lib/c/file_system/ipo_inode.c:79-93 | allocation takes the least block whose bit is clear, sets that bit, zeroes that block and changes nothing else; it fails without a change if and only if every bit is set |
| `BlockMap.GrowSelf` | lib/c/file_system/ipo_inode.c:101-182 | hanging a fresh block at a missing key sets that pointer and no other of the inode |
| `BlockMap.GrowOther` | lib/c/file_system/ipo_inode.c:101-182 | no pointer of any other inode changes |
| `BlockMap.GrowOwn` | lib/c/file_system/ipo_inode.c:101-182 | every single allocation keeps ownership for the inode being edited and all others |
| `BlockMap.WalkAlloc` | lib/c/file_system/ipo_inode.c:101-182 | an allocating walk keeps ownership and all mappings, changes only keys on its way, and fails only when no block is free |
| `BlockMap.GetBlockAlloc` | lib/c/file_system/ipo_inode.c:101-182 | stable injection: what was allocated is then found, no other logical block of any inode moves, no block already named is handed out, a failure changes no lookup, fresh data blocks are zero |
| `BlockMap.GetBlockIff` | lib/c/file_system/ipo_inode.c:101-182 | a block can be had if and only if its index is below the end of the map and there is a free block for every pointer missing on the way to it |
| `BlockMap.GetBlockLookup` | lib/c/file_system/ipo_inode.c:101-182 | a lookup without allocation returns the pointer at the leaf, or -1, and changes nothing |
| `BlockMap.LeafOfInjective` | lib/c/file_system/ipo_inode.c:101-182 | distinct logical indices have distinct pointer places over all three tiers |
| `BlockMap.LookupInjective` | lib/c/file_system/ipo_inode.c:101-182 | a data block is never a pointer block, nor another logical block of any inode |
| `BlockMap.StaleOwn` | lib/c/file_system/ipo_inode.c:101-182 | in the middle of a call, read through the old slot on disk, ownership holds too |
| `FileData.WriteKeeps` | lib/c/file_system/ipo_api.c:193-216 | the write loop keeps ownership, only adds mappings, and leaves the blocks of other inodes alone |
| `FileData.WriteBytes` | lib/c/file_system/ipo_api.c:193-216 | for every position: the written bytes are those of the buffer, mapped bytes elsewhere are unchanged, the rest of a fresh block is zero |
| `FileData.WriteStops` | lib/c/file_system/ipo_api.c:200-202 | a write is short only at the end of the map or on a full volume, and stops at a hole |
| `FileData.ReadIsPrefix` | lib/c/file_system/ipo_api.c:169-191 | a read returns the longest hole-free prefix of the range |
| `Transfer.RoundsAreWrite` | lib/c/file_system/ipo_api.c:196-210 | the loop over block numbers, with its first-block offset and remaining count, is the byte-sequence write |
| `Transfer.RoundsAreTouch` | lib/c/file_system/ipo_api.c:196-210 | for zero bytes the loop only makes sure that blocks are mapped |
| `Transfer.ReadStep` | lib/c/file_system/ipo_api.c:176-188 | one round of the read loop is one step of the byte-sequence read |
| `EmptyWrite.WriteEmptyKeeps` | lib/c/file_system/ipo_api.c:193-216 | a zero-byte write keeps ownership and every other file, in spite of the wrapped last block |
| `EmptyWrite.WriteEmptyBytes` | lib/c/file_system/ipo_api.c:193-216 | it changes no byte, brings the size to the offset at least, and fills holes with zeros from the offset up to the end of the range, the end of the map or the first block there is no room for |
| `EmptyWrite.EmptyWriteBoundedIff` | lib/c/file_system/ipo_api.c:196-214 | it keeps direct pointers within the size if and only if the offset is positive, the size covers all direct blocks, or the free blocks are no more than the direct slots missing within the size |
| `Inodes.AllocInodeOwned` | lib/c/file_system/ipo_inode.c:30-43 | taking an inode keeps ownership and the bound on direct pointers |
| `Inodes.FreeInodeOwned` | lib/c/file_system/ipo_inode.c:45-77 | giving an inode back keeps ownership: no bit it clears belongs to another inode |
| `Inodes.FreeExact` | lib/c/file_system/ipo_inode.c:45-77 | with no direct pointer beyond the size, exactly the bits of the blocks owned outside the double-indirect tree are cleared |
| `Inodes.FreeLeaves` | lib/c/file_system/ipo_inode.c:45-77 | the slot keeps mode, size, links and the double-indirect pointer and loses the direct pointers within the size and the indirect one; no block and no other slot changes |
| `Inodes.FreeCompleteIff` | lib/c/file_system/ipo_inode.c:45-77 | all blocks come back if and only if there is no double-indirect tree |
| `Inodes.WriteFileOwned` | lib/c/file_system/ipo_api.c:193-216 | a write call keeps the ownership invariant, modes, and every other inode slot |
| `Inodes.WriteFileBytes` | lib/c/file_system/ipo_api.c:193-216 | the bytes and the size, max(old, offset + written), of the file after a write call |
| `Inodes.WriteFileIsolated` | lib/c/file_system/ipo_api.c:193-216 | every other file keeps pointers and bytes |
| `Inodes.WriteFileBounded` | lib/c/file_system/ipo_api.c:193-216 | a write of at least one byte keeps direct pointers within the size |
| `Inodes.ReadFileIs` | lib/c/file_system/ipo_api.c:169-191 | for every offset and buffer size: the bytes are those of the file from the offset on, none lie past the size, and there are fewer than asked for only at the size or at a hole |
| `Inodes.ReadAfterWrite` | lib/c/file_system/ipo_api.c:169-216 | reading where a write began, into a buffer of any size, gives the bytes written, then those the file held, and ends at the new size or at a hole |
| `Directory.EntryAtPut` | lib/c/file_system/ipo_dir.c:73-83 | storing one of the seven entries of a block changes that entry and no other |
| `Directory.MatchesAgree` | lib/c/file_system/ipo_dir.c:28-31 | on stored entries the comparison by length in find and the padded one in remove agree, and both mean equality of names |
| `Directory.ScansFind` | lib/c/file_system/ipo_dir.c:14-37 | both scans find the first live slot of that name |
| `Directory.PutSlot` | lib/c/file_system/ipo_dir.c:66-83 | slot e, at block e/7 and index e mod 7, is stored without touching any other slot, over direct and indirect blocks |
| `Directory.DirAddEffect` | lib/c/file_system/ipo_dir.c:58-87 | an add appends a live slot, or is refused with the log unchanged; when it is refused, and when not |
| `Directory.DirRemoveEffect` | lib/c/file_system/ipo_dir.c:89-115 | a remove buries the first live slot of the name and nothing else; it succeeds if and only if there is one that is neither a dot nor protected |
| `Directory.SetSlotInoEffect` | lib/c/file_system/ipo_api.c:319-329 | the ".." edit of rename changes one slot of one directory |
| `DirMap.AddThenFind` | lib/c/file_system/ipo_dir.c:8-87 | after a successful add the name is found with its inode and type; every other name stands for what it stood for |
| `DirMap.RemoveThenFind` | lib/c/file_system/ipo_dir.c:8-115 | after a successful remove the name is not found; every other name stands for what it stood for |
| `Tree.FindAppend` | lib/c/file_system/ipo_dir.c:58-87 | add then find gives the new entry; other names are found as before |
| `Tree.FindBury` | lib/c/file_system/ipo_dir.c:89-115 | after a remove the name is gone; other names are found as before |
| `Paths.CanonicalForm` | lib/c/file_system/ipo_path.c:27-67 | for any buffer of more than 65 bytes: absolute, no empty, "." or ".." token, fits, and canonicalizing again changes nothing |
| `Paths.TokensOfCanonical` | lib/c/file_system/ipo_path.c:5-67 | a path and its canonical form have the same tokens, hence resolve alike |
| `Paths.PrefixTokens` | lib/c/file_system/ipo_path.c:79-92 | the parent part of a canonical path has the tokens of the path but the last |
| `Paths.TokensPlain` | lib/c/file_system/ipo_path.c:36-54 | every token walked has 1 to 63 characters, no slash, and is not a dot name; at most 128 of them |
| `Paths.CompsRender` | lib/c/file_system/ipo_path.c:36-66 | splitting inverts rendering |
| `PathLaws.CompsSplit` | lib/c/file_system/ipo_path.c:36-43 | the components on the two sides of any slash follow one another |
| `PathLaws.CompsOne` | lib/c/file_system/ipo_path.c:38-43 | a piece without a slash is one component, its first 63 characters |
| `PathLaws.FoldAppend` | lib/c/file_system/ipo_path.c:36-54 | the components before any point do their work on the token stack first, unless the 129th name stopped the scan among them |
| `PathLaws.CanonicalLongest` | lib/c/file_system/ipo_path.c:55-66 | in a buffer of any size the canonical form is the longest front of the token stack whose text and NUL take less than the buffer |
| `PathLaws.DotTokens` | lib/c/file_system/ipo_path.c:36-66 | for every path, a slash or "/." at its end changes no token |
| `PathLaws.DotDotTokens` | lib/c/file_system/ipo_path.c:36-66 | for every path, "/.." at its end takes the last token away, if there is one, exactly when no token of the path was lost to the limit of 128 or to the buffer |
| `PathLaws.NameTokens` | lib/c/file_system/ipo_path.c:36-66 | for every path, a slash and a name at its end add one token, or none exactly when there is no room for it |
| `PathLaws.ShortWhole` | lib/c/file_system/ipo_path.c:27-67 | no path of at most 255 characters loses a token |
| `PathLaws.DotsInside` | lib/c/file_system/ipo_path.c:36-66 | between names ".." takes away the name before it, or nothing at the front, and "." takes away nothing |
| `DotDot.DotDotLeads` | lib/c/file_system/ipo_path.c:5-67 | on a tree a path with "/.." at its end leads to the directory that holds the entry of what the path leads to, which is what the ".." of a directory names; and from the root to the root |
| `DotDot.DotDotIsText` | lib/c/file_system/ipo_path.c:5-67 | a name followed by ".." is taken away as text, whether or not it is there |
| `DotDot.NameLeads` | lib/c/file_system/ipo_path.c:5-95 | a path with one more name has that name and the directory the path leads to as its parent, and leads where that directory says |
| `DotDot.RootHasNoParent` | lib/c/file_system/ipo_path.c:69-92 | however it is spelled, a path to the root has no parent |
| `Api.ResolveComposes` | lib/c/file_system/ipo_path.c:5-95 | whenever a path has a parent and last name, it resolves to an inode exactly when that directory has the name for it |
| `Owners.CreateKept` | lib/c/file_system/ipo_api.c:129-149 | create of any type keeps ownership, and direct pointers within the sizes, on every volume that has them |
| `Owners.DeleteKept` | lib/c/file_system/ipo_api.c:218-235 | so does delete |
| `Owners.RenameKept` | lib/c/file_system/ipo_api.c:280-332 | so does rename, whatever the two paths are |
| `Tree.CreateKeeps` | lib/c/file_system/ipo_api.c:129-149 | creating keeps the tree invariant if and only if a file is created |
| `Tree.DeleteKeeps` | lib/c/file_system/ipo_api.c:218-235 | deleting a file or an empty directory keeps it: no child is orphaned |
| `Tree.MoveKeeps` | lib/c/file_system/ipo_api.c:317-331 | moving an entry, with ".." set, keeps it when the target is not inside the moved directory |
| `Tree.Reparent` | lib/c/file_system/ipo_api.c:319-329 | every directory still climbs to the root after a directory was hung elsewhere |
| `TreePaths.PathsUnique` | lib/c/file_system/ipo_path.c:5-25 | no inode has two canonical paths |
| `TreePaths.EveryInodeHasPath` | lib/c/file_system/ipo_path.c:5-25 | every inode in the tree has one |
| `TreePaths.RenamePaths` | lib/c/file_system/ipo_api.c:280-332 | every walk after a move, as a walk before it: below the new place what lay below the moved inode, below the old place nothing, elsewhere the same, failures included |
| `TreePaths.MoveKeepsIff` | lib/c/file_system/ipo_api.c:280-332 | moving a directory keeps the tree if and only if the target is not inside it |
| `VolTree.ResolveIsWalk` | lib/c/file_system/ipo_path.c:5-25 | resolution on the volume is walking the tree |
| `Calls.CreateEffect` | lib/c/file_system/ipo_api.c:129-149 | create, of files and directories, adds one entry for a new inode or leaves the tree as it was; the invariant survives if and only if nothing but a file was made |
| `Calls.DeleteEffect` | lib/c/file_system/ipo_api.c:218-235 | delete removes one unprotected entry and its inode, keeping the invariant, or changes nothing |
| `Calls.DescendantDecides` | lib/c/file_system/ipo_api.c:262-278 | is_descendant is true if and only if the node lies inside the directory, along ".." |
| `Calls.PlanIs` | lib/c/file_system/ipo_api.c:280-316 | a rename that goes ahead moves a live unprotected entry to a free valid name; into an existing directory only if that is not inside the moved one |
| `Calls.RenameEffect` | lib/c/file_system/ipo_api.c:280-332 | rename moves exactly one entry or leaves the tree as it was, and keeps the invariant under the fresh-name premise |
| `Calls.RenameKeepsIff` | lib/c/file_system/ipo_api.c:306-331 | a directory rename keeps the invariant if and only if the new place is not inside the directory |
| `Outcomes.OpenOutcome` | lib/c/file_system/ipo_api.c:151-167 | open hands back the least free descriptor, which now refers to the inode of the path while all others stay; -1 and no change if and only if the path leads to no file or every descriptor is in use |
| `Outcomes.OpenOnTree` | lib/c/file_system/ipo_api.c:151-158 | a path leads to a file if and only if it walks to a node that is no directory |
| `Outcomes.WriteOutcome` | lib/c/file_system/ipo_api.c:193-216 | write hands back -1 if and only if the descriptor is bad; otherwise the number of bytes from the front of the buffer that are in the file at the offset, with all other bytes and the size as they must be; fewer than the buffer only at the end of the map or on a full volume |
| `Outcomes.EmptyWriteOutcome` | lib/c/file_system/ipo_api.c:193-216 | a write of zero bytes hands back 0, and what it does to bytes and size |
| `Outcomes.WriteThenRead` | lib/c/file_system/ipo_api.c:169-216 | a read with a buffer of any size gives back what a write through a descriptor stored |
| `Outcomes.AddIff` | lib/c/file_system/ipo_dir.c:58-87 | an add succeeds if and only if the inode is a directory, the name is valid and not taken, and there are free blocks for one more slot |
| `Outcomes.CreateOutcome` | lib/c/file_system/ipo_api.c:129-149 | create succeeds if and only if the parent is a directory, the name is valid and not taken, an inode is free, and there are blocks for one more slot; it hands back the least free inode, which is then empty with the mode given and one link, or -1 |
| `Outcomes.RenameOutcome` | lib/c/file_system/ipo_api.c:280-332 | when rename refuses, when it succeeds without a change, and when it moves the entry: the inode is neither root nor protected, the place is a directory not inside it, the name is valid and free, and there are blocks for one more slot |
| `PathEffects.CreateResolves` | lib/c/file_system/ipo_api.c:129-149 | after create, of files and directories, the path leads to the new inode, and every other path leads where it led, or nowhere still |
| `PathEffects.DeleteUnresolves` | lib/c/file_system/ipo_api.c:218-235 | after delete the paths that led to the inode lead nowhere, and every other path leads where it led, or nowhere still |
| `PathEffects.RenameResolves` | lib/c/file_system/ipo_api.c:280-332 | after rename every path below the new place leads to what lay below the moved inode, every path below the old one nowhere, and every other path where it led, or nowhere still |
| `PathEffects.RenameCarries` | lib/c/file_system/ipo_api.c:280-332 | below the new place lies what lay below the old path, and nothing else |
| `Isolation.CreateIsolated` | lib/c/file_system/ipo_api.c:129-149 | on every owned volume create, of files and directories, leaves slot, block map and bytes of every file as they were |
| `Isolation.DeleteIsolated` | lib/c/file_system/ipo_api.c:218-235 | on every owned volume delete leaves every file but the deleted one as it was |
| `Isolation.WriteIsolated` | lib/c/file_system/ipo_api.c:193-216 | write, also of zero bytes, leaves every other file as it was |
| `Isolation.RenameIsolated` | lib/c/file_system/ipo_api.c:280-332 | on every owned volume rename leaves every file as it was, unless the entry it moves calls the file a directory |
| `Isolation.TreeNotMistaken` | lib/c/file_system/ipo_api.c:280-332 | on a tree no entry calls a file a directory, so there rename disturbs no file at all |
| `Isolation.RunIsolated` | lib/c/file_system/ipo_api.c:129-332 | over every run from every owned volume a file that no call writes to, deletes or renames as a directory keeps its inode, its block map and its bytes |
| `Isolation.EveryRunIsolated` | lib/c/file_system/ipo_api.c:18-332 | the same from any state that calls lead to after format |
| `Runs.StepKeeps` | lib/c/file_system/ipo_api.c:129-332 | each call keeps the whole invariant and every protected entry |
| `Runs.RunKeeps` | lib/c/file_system/ipo_api.c:129-332 | so does every legal sequence of create, open, write, delete and rename, stale descriptors included |
| `Runs.RunOwnership` | lib/c/file_system/ipo_inode.c:30-182 | in every state any sequence of calls reaches from an owned volume, any pointer of any inode names a data block with its bit set that no other pointer names; files and directories are created, renames go anywhere |
| `Conservation.StepBoundedIff` | lib/c/file_system/ipo_api.c:129-332 | any call keeps direct pointers within the sizes if and only if it is harmless: not a zero-byte write at offset 0 that finds more free blocks than slots missing within the size of a small file |
| `Conservation.RunBounded` | lib/c/file_system/ipo_api.c:129-332 | direct pointers stay within the sizes in every run of harmless calls |
| `Conservation.RunFreeExact` | lib/c/file_system/ipo_inode.c:45-77 | in every state such a run reaches, freeing any inode clears exactly the bits it owned outside the double-indirect tree |
| `Conservation.EveryRunOwned` | lib/c/file_system/ipo_api.c:18-332 | from format on, every sequence of calls keeps every block with one owner |
| `Conservation.EveryRunFreeExact` | lib/c/file_system/ipo_api.c:18-332 | from format on, as long as no call writes zero bytes at offset 0, freeing an inode clears exactly what it owned |
| `Lifecycle.WriteDbl` | lib/c/file_system/ipo_api.c:193-216 | a write that ends within the first 134 blocks leaves the double-indirect pointer as it was |
| `Lifecycle.CreateWriteFree` | lib/c/file_system/ipo_inode.c:30-182 | taking an inode, any writes and freeing it put back every bit if and only if no double-indirect tree was made; writes within 134 blocks never make one |
| `Lifecycle.FileLife` | lib/c/file_system/ipo_api.c:129-235 | create, open, any writes within 134 blocks and delete, on any volume where inodes are named once: all inode bits are as before, and so are all block bits but those of blocks the parent directory got |
| `Leaks.DeleteLeaksIff` | lib/c/file_system/ipo_inode.c:45-77 | deleting a file leaves the block at one of its pointers in use without an owner if and only if free_inode does not look at that pointer |
| `Leaks.EmptyWriteLeaks` | lib/c/file_system/ipo_api.c:193-235 | from format: a write of zero bytes at offset 0 to a new file leaves a direct block beyond the size, and deleting the file loses that block |
| `Leaks.DoubleLeaks` | lib/c/file_system/ipo_api.c:193-235 | from format: one byte written at offset 134 * 512 leaves a double-indirect block, and deleting the file loses that block |
| `Format.FormatEstablishes` | lib/c/file_system/ipo_api.c:65-115 | a successful format leaves the invariant of all runs and the two protected entries |
| `Format.FormatSucceeds` | lib/c/file_system/ipo_api.c:65-115 | three inodes and two data blocks are enough for format, which then takes just these |
| `Format.FormatIff` | lib/c/file_system/ipo_api.c:65-115 | format succeeds if and only if there are three inodes and two data blocks at least |
| `FormatTable.FormatInodes` | lib/c/file_system/ipo_api.c:68-115 | the inode table afterwards: modes, sizes, links and blocks of the root, "/app" and "/autorun", and zeros from there on |
| `Format.ProtectedForever` | lib/c/file_system/ipo_api.c:85-111 | "/app" and "/autorun" lead to the inodes format gave them, after any run |
| `Format.EveryRun` | lib/c/file_system/ipo_api.c:65-332 | from format on, every run keeps ownership, directories and tree, and the protected paths |
| `Dotless.CreateSound` | lib/c/file_system/ipo_api.c:129-149 | on volumes whose directories may lack dots, create of a file or directory adds one node and one entry or nothing, and keeps every inode named once |
| `Dotless.DeleteSound` | lib/c/file_system/ipo_api.c:218-235 | there delete succeeds exactly when the path leads to an inode that is not protected and, where its entry has type 1, has at most 144 bytes; it removes just its entry and its inode |
| `Dotless.DeleteOrphansIff` | lib/c/file_system/ipo_api.c:218-235 | a successful delete keeps every other inode named if and only if the deleted one holds no proper entry; what its entries named stays allocated |
| `Dotless.OrphanLost` | lib/c/file_system/ipo_api.c:218-235 | no path leads to what a delete has cut off |
| `Orphans.RunOrphans` | lib/c/file_system/ipo_api.c:129-235 | from format, creating a directory and two files in it and deleting the directory all succeed, and the files are cut off |
| `DotlessMoves.RenameSoundIff` | lib/c/file_system/ipo_api.c:306-331 | on such volumes a rename keeps every inode named once if and only if, where a directory is moved, its slot 1 is not there, is well stored under a dot name, or names the new parent already |
| `Unrooted.RunUnroots` | lib/c/file_system/ipo_api.c:129-332 | from format: a directory made by create gets two files, is renamed and has its second file deleted; this frees the root, and no path leads anywhere any more |
| `IntoItself.RenameBreaks` | lib/c/file_system/ipo_api.c:280-332 | on a formatted volume with a further directory "/d", renaming it to "/d/x" succeeds and breaks the tree |
| `IntoItself.RunsWithDir` | lib/c/file_system/ipo_api.c:129-332 | legal runs from that volume keep its tree |
| `IpoFs.FileSystem.BitmapGet` | lib/c/file_system/ipo_bitmap.c:7-22 | the bit as the value gives it |
| `IpoFs.FileSystem.BitmapSet` | lib/c/file_system/ipo_bitmap.c:24-49 | the disk after the read-modify-write of one block |
| `IpoFs.FileSystem.ReadInode` | lib/c/file_system/ipo_inode.c:8-17 | the inode of the volume, or refusal of a number outside the table |
| `IpoFs.FileSystem.WriteInode` | lib/c/file_system/ipo_inode.c:19-28 | the volume with that inode replaced |
| `IpoFs.FileSystem.AllocateInode` | lib/c/file_system/ipo_inode.c:30-43 | the least free inode, zeroed, or -1 exactly when none is free |
| `IpoFs.FileSystem.AllocateBlock` | lib/c/file_system/ipo_inode.c:79-93 | the least free block, cleared, or -1 exactly when none is free |
| `IpoFs.FileSystem.FreeBlock` | lib/c/file_system/ipo_inode.c:95-99 | one bit cleared, or refusal of a block below the data area |
| `IpoFs.FileSystem.FreeInode` | lib/c/file_system/ipo_inode.c:45-77 | both freeing loops, the inode bit and the slot, as the value gives them |
| `IpoFs.FileSystem.GetDataBlock` | lib/c/file_system/ipo_inode.c:101-182 | disk, inode and result of the three tiers are those of the block map, failures half-way included |
| `IpoFs.FileSystem.Write` | lib/c/file_system/ipo_api.c:193-216 | the volume and result of the write call, which `Outcomes.WriteOutcome` describes |
| `IpoFs.FileSystem.Read` | lib/c/file_system/ipo_api.c:169-191 | -1 exactly for a bad descriptor, otherwise the bytes and the count that `Inodes.ReadFileIs` describes; the disk is unchanged |
| `IpoDir.FindEntry` | lib/c/file_system/ipo_dir.c:8-40 | the first slot that carries the name, or none; the disk is unchanged |
| `IpoDir.AddEntry` | lib/c/file_system/ipo_dir.c:58-87 | the volume and result of the directory add |
| `IpoDir.RemoveEntry` | lib/c/file_system/ipo_dir.c:89-115 | the volume and result of the directory remove |
| `PathText.TokenStack` | lib/c/file_system/ipo_path.c:36-54 | the character scan leaves the token stack of the path, for which the laws of `PathLaws` hold |
| `PathText.Canonicalize` | lib/c/file_system/ipo_path.c:27-67 | the output buffer holds the canonical path and a NUL, all writes in bounds, the rest of the buffer untouched |
| `IpoPath.CanonicalPath` | lib/c/file_system/ipo_path.c:7 | the C string read back from a buffer of 512 characters |
| `IpoPath.Resolve` | lib/c/file_system/ipo_path.c:5-25 | the walk over characters gives the inode the tokens lead to, or -1 |
| `IpoPath.ResolveParent` | lib/c/file_system/ipo_path.c:69-95 | parent directory and last name, or refusal |
| `IpoApi.Create` | lib/c/file_system/ipo_api.c:129-149 | the volume and result of create, with free_inode on a failed add, on every owned volume; nothing when not mounted |
| `IpoApi.Open` | lib/c/file_system/ipo_api.c:151-167 | the least free descriptor for a resolved file |
| `IpoApi.Delete` | lib/c/file_system/ipo_api.c:218-235 | the volume and result of delete on every owned volume |
| `IpoApi.TreeStops` | lib/c/file_system/ipo_api.c:262-278 | on every tree the loop ends, from any directory |
| `IpoApi.IsDescendant` | lib/c/file_system/ipo_api.c:262-278 | the relation, wherever the loop ends |
| `IpoApi.Rename` | lib/c/file_system/ipo_api.c:280-332 | the volume and result of rename, all refusals included, on every owned volume where the descendant loop ends |
| `IpoFormat.BlankDisk` | lib/c/file_system/ipo_api.c:54-63 | zeroed bitmaps and table are a volume with nothing taken |
| `IpoFormat.FormatDisk` | lib/c/file_system/ipo_api.c:18-116 | on any disk: failure where no layout can be made; with a good layout the volume runs start from, or failure exactly where that cannot be made |
| `HeapBlocks.Fit` | lib/c/memory/kmalloc.c:33-54 | the first free block with room, or none |
| `HeapBlocks.RunKeeps` | lib/c/memory/kmalloc.c:33-146 | every run keeps the tiling: block sizes add up to the space in use, below the heap size; allocated blocks were handed out and hold what was asked |
| `HeapBlocks.RunAt` | lib/c/memory/kmalloc.c:59-146 | block boundaries never disappear; a release mark is for ever; a reused block stays allocated; an allocated block nobody releases stays as it is |
| `HeapBlocks.LiveDisjoint` | lib/c/memory/kmalloc.c:82-121 | two allocated blocks do not overlap, and each holds the bytes asked for inside the heap |
| `HeapBlocks.RunCounts` | lib/c/memory/kmalloc.c:59-146 | releases that take effect equal the marks left, and never exceed the blocks made by extension or cutting |
| `HeapBlocks.ReleasedOnce` | lib/c/memory/kmalloc.c:126-146 | each block is released at most once, however often it is asked for |
| `HeapBlocks.TwelvesLegal` | lib/c/memory/kmalloc.c:59-77 | requests in multiples of 12 never leave a rest too small for a header |
| `HeapOutcomes.MallocIff` | lib/c/memory/kmalloc.c:82-121 | kmalloc hands out nothing if and only if nothing is asked for, or no free block has room and the request would not stay below 64 MB |
| `HeapOutcomes.RunSucceeds` | lib/c/memory/kmalloc.c:82-121 | in every run from the empty heap a request succeeds while all requests together stay below 64 MB |
| `HeapOutcomes.MallocOutcome` | lib/c/memory/kmalloc.c:59-121 | by addresses: the first free block with room, cut exactly when it is larger than needed, or else a new block at the end of the space in use; every other block stays |
| `HeapOutcomes.ReleaseOutcome` | lib/c/memory/kmalloc.c:126-146 | in every run, releasing what was handed out marks its block free and changes nothing else if it was never released before, and does nothing otherwise |
| `Kmalloc.CutTilesIff` | lib/c/memory/kmalloc.c:59-77 | after a cut the headers can be walked to the end if and only if the rest has room for a header |
| `Kmalloc.SliverReached` | lib/c/memory/kmalloc.c:59-121 | three calls lead to a heap where a fourth leaves a rest of one byte |
| `Kmalloc.OtherBytes` | lib/c/memory/kmalloc.c:59-121 | cutting and zeroing change no byte of any other block |
| `Kmalloc.Heap.FindFreeBlock` | lib/c/memory/kmalloc.c:33-54 | the scan over headers in memory ends and returns the first fit |
| `Kmalloc.Heap.SplitBlock` | lib/c/memory/kmalloc.c:59-77 | the two headers after a cut, and all other bytes unchanged |
| `Kmalloc.Heap.Malloc` | lib/c/memory/kmalloc.c:82-121 | the blocks of the specification in memory (`HeapOutcomes.MallocIff` and `MallocOutcome` say which), the user bytes zero, nothing outside the block taken changed |
| `Kmalloc.Heap.Free` | lib/c/memory/kmalloc.c:126-146 | the release of the specification in memory; a second release does nothing |
| `Scrollback.ScrollUpZip` | lib/c/kernel/terminal.c:216-248 | scrolling back keeps all lines; the lower buffer has room whenever there is a line above |
| `Scrollback.ScrollDownZip` | lib/c/kernel/terminal.c:181-213 | scrolling forward keeps all lines, and its unguarded write to the upper buffer is in bounds |
| `Scrollback.PresentZip` | lib/c/kernel/terminal.c:145-178 | returning to the present keeps all lines |
| `Scrollback.ScrolledZip` | lib/c/kernel/terminal.c:145-248 | so does any mix of the three |
| `Scrollback.ReturnRestores` | lib/c/kernel/terminal.c:145-248 | after any scrolling from the present, returning gives exactly the screen and history there were |
| `Scrollback.AutoScrollZip` | lib/c/kernel/terminal.c:105-142 | output that scrolls keeps all lines if and only if nobody has scrolled back |
| `Scrollback.TypeMeans` | lib/c/stdio/putchar.c:13-47 | from any cursor: newline, return, tab to a multiple of 8, or exactly one cell and the cursor one on |
| `Scrollback.EraseUndoes` | lib/c/kernel/terminal.c:444-481 | backspace after a printable character gives back the input line and the view, but for one blank cell |
| `Scrollback.PutShows` | lib/c/stdio/putchar.c:13-57 | output at the present extends the transcript and leaves the two header rows |
| `Scrollback.TurnShows` | lib/c/kernel/terminal.c:390-483 | one console turn prints only at the present and loses no line |
| `Scrollback.TurnsShow` | lib/c/kernel/terminal.c:390-483 | after any events, buffers and screen are the end of an append-only transcript, bounded, header untouched |
| `Scrollback.FromStart` | lib/c/kernel/terminal.c:292-303 | the same, from the initialised terminal on |
| `ConsoleKeys.EntryParts` | lib/h/vga.h:33-35 | a cell holds its character in the low byte, above it the colours of text and background |
| `ConsoleKeys.PutMeans` | lib/c/stdio/putchar.c:13-57 | output at the present: cell and cursor, and past the last row the top line goes to the history, the rows move up, and the cursor starts the blank last row |
| `ConsoleKeys.ScrollKeys` | lib/c/kernel/terminal.c:181-411 | Page Up moves the window over the lines kept by one towards the oldest, Page Down by one towards the newest, each stopping at its end and changing nothing else |
| `ConsoleKeys.PageUps` | lib/c/kernel/terminal.c:216-411 | Page Up n times shows the window n lines back, or the oldest lines kept |
| `ConsoleKeys.PageDowns` | lib/c/kernel/terminal.c:181-411 | Page Down n times shows the window n lines on, or the present |
| `ConsoleKeys.PrintKey` | lib/c/kernel/terminal.c:474-481 | from however far back: a printable character is shown at the present and joins the input line of at most 255 characters |
| `ConsoleKeys.EnterKey` | lib/c/kernel/terminal.c:421-443 | enter starts a new line, prints the output of a command if one was typed, and shows the prompt of an empty line |
| `ConsoleKeys.EraseKey` | lib/c/kernel/terminal.c:444-456 | backspace shortens the input line by one character and blanks the cell before the cursor, which moves there |
| `ConsoleKeys.TabKey` | lib/c/kernel/terminal.c:457-473 | tab types spaces up to a column divisible by 4, or as many as the input line has room for |
| `ConsoleKeys.NoKey` | lib/c/kernel/terminal.c:390-397 | without a character the prompt is shown, the view stays where it is, and nothing else happens |
| `ConsoleKeys.OtherKey` | lib/c/kernel/terminal.c:414-482 | any other character only returns to the present |
| `Terminal.CopyRow` | lib/c/kernel/terminal.c:85-102 | one row of 80 cells copied, nothing else changed |
| `Terminal.ShiftUp` | lib/c/kernel/terminal.c:116-135 | rows moved up in place by the nested loops |
| `Terminal.ShiftDown` | lib/c/kernel/terminal.c:236-243 | rows moved down in place |
| `Terminal.Tty.AutoScroll` | lib/c/kernel/terminal.c:105-142 | video memory and upper buffer afterwards, the full buffer dropping its oldest line |
| `Terminal.Tty.ReturnToPresent` | lib/c/kernel/terminal.c:145-178 | the loop is the specification's, and the cursor is shown again |
| `Terminal.Tty.ScrollDown` | lib/c/kernel/terminal.c:181-213 | the view afterwards |
| `Terminal.Tty.ScrollUp` | lib/c/kernel/terminal.c:216-248 | the view afterwards |
| `Terminal.Tty.PutcharColor` | lib/c/stdio/putchar.c:13-57 | cell, cursor and scrolling for printable characters, newline, return, tab and a cursor out of range |
| `Terminal.Tty.Initialize` | lib/c/kernel/terminal.c:292-303 | the blank screen under the header, empty history |
| `Terminal.Tty.TakeTurn` | lib/c/kernel/terminal.c:390-483 | one console turn, which `ConsoleKeys` describes key by key; the cursor is shown exactly at the present |
| `DiskEditor.ThreeSuffice` | disk_editor.py:238-303 | a lookup takes at most three blocks, and three free blocks are enough for any index within the map |
| `DiskEditor.CatIsRead` | disk_editor.py:435-446 | on a file without holes cat is the kernel's read of the whole file |
| `DiskEditor.CatBytes` | disk_editor.py:435-446 | it prints the bytes of the file, as many as the size says |
| `DiskEditor.PutThenCat` | disk_editor.py:554-590 | what put stored, cat returns, whatever the file held before; ownership is kept |
| `DiskEditor.PutIsolated` | disk_editor.py:554-590 | every other file keeps its bytes |
| `DiskEditor.EmptiedExact` | disk_editor.py:554-575 | the freeing before the data goes in clears what free_inode would and no bit besides, and drops those pointers only |
| `DiskEditor.PutAttrs` | disk_editor.py:554-590 | the slot keeps mode and links and gets the new size; the inode bitmap and every other slot stay |
| `DiskEditor.PutFitsIf` | disk_editor.py:577-586 | put does not run short within the map's limit when three blocks are free for each block of data |
| `DiskEditor.DeleteExact` | disk_editor.py:612-648 | with no direct pointer beyond the size, delete clears exactly the blocks owned, the double-indirect tree included |
| `DiskEditor.DeleteOwned` | disk_editor.py:612-648 | delete keeps ownership and the bytes of every other file |
| `DiskEditor.DeleteLeaves` | disk_editor.py:612-648 | the slot is all zero, its bit is clear, and no block and no other slot changes |
| `DiskEditor.SameFreeingIff` | disk_editor.py:612-648 | kernel and editor free the same bits if and only if there is no double-indirect tree |
| `DiskImage.Image.BitmapGet` | disk_editor.py:200-204 | the kernel's bitmap_get |
| `DiskImage.Image.BitmapSet` | disk_editor.py:206-215 | the kernel's bitmap_set, block for block |
| `DiskImage.Image.AllocateBlock` | disk_editor.py:227-234 | the least free block, cleared, as the kernel's |
| `DiskImage.Image.GetBlockForInode` | disk_editor.py:238-303 | same block, same disk, same inode as the kernel's block map, wherever that does not lack a block |
| `DiskImage.Image.Cat` | disk_editor.py:442-446 | the read loop gives the bytes of the specification |
| `DiskImage.Image.Put` | disk_editor.py:554-589 | freeing, data loop and inode writes give the volume of the specification |
| `DiskImage.Image.Delete` | disk_editor.py:612-648 | the nested freeing loops give the volume of the specification |

## Left out

- StepKeeps: where create makes directories only ownership is promised over runs, not the tree, which such a call breaks by `CreateKeeps`.
- RunKeeps: a rename of a directory to a fresh name inside itself is excluded by premise; `RenameKeepsIff` gives the exact condition. Ownership has neither premise.
- Rename: says nothing where the ".." links above the target form a cycle, on which the code's loop does not end.
- GetBlockForInode: says nothing for a full disk, where the editor stores the failed allocation's -1 as a block number.
- Cat: says nothing about files with holes, where the editor reads block -1.
- Malloc: says nothing about requests above 2^32 - 2^26 - 12 bytes, whose sum with the space in use wraps, nor about a rest smaller than a header.
- FormatDisk: takes the encoded superblock as a parameter, and only layouts that are good, which format makes for at most 54 inodes; the classes over disks say nothing about larger tables, the kernel's own 1024 inodes among them.
- AutoScroll: printing by programs goes through the characters of a command's response; other output while scrolled back is not modelled.
- Failed block reads and writes, and the retry and delay loops around them.
- mount, stat, list_dir and write_text: short compositions of what is here.
- Bytes of an inode block behind its six slots: kept by the writes, but no part of a volume value.
- The disk editor's own format, directories and paths: it packs entries across block ends, unlike the kernel.
- The freeing of a directory's blocks by the disk editor's directory removal.
- Keyboard, key maps, cursor registers of the display, sound, timer, disk port input and output, boot code.
- Processes, autorun, command lookup and argument splitting.
- printf, number formatting and the string functions: sequences stand for them.
