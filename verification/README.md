# Multiboot init: the models behind its block-device library and its fstab rewrite

The repository is an Android multiboot init together with a vendored util-linux (libblkid and libfdisk). Its boot glue
is calls to `mount`, `exec` and `ptrace`; the logic that can be wrong on its own is in the library code and in the
rewrite of the fstab. This project models that logic in Dafny, in the form the C code has (loops over buffers, classes
for structs that are updated in place), and proves what the code is for.

| part | source | modules |
|---|---|---|
| merge sort on intrusive rings | include/list.h | ListHead, ListRing, StableSorting, SortCounter, ListMerge, ListSort |
| tag cache | tag.c, dev.c, devname.c, verify.c, cache.c | TagIndex, TagCache, TagLoose, DevCache, DevValue, DevVerify, GetValue, DevGet, RunValue, CacheRun, FindDev |
| cache file | save.c, read.c | CNumber, CacheText, CacheFile, CacheFormat, CacheExact, CacheParse, CacheReadWrite, CacheRing, CacheRoundTrip |
| low-level prober | probe.c | ProbeChain, ProbeBuffer |
| digests | md5.c, crc32.c, crc64.c | Md5Block, Md5, Crc32, Crc64 |
| text codecs | mangle.c, encode.c | MangleText, Utf8, Encode |
| CPU lists and masks, partition lists | cpuset.c, ask.c | CpuRange, CpuText, CpuSet, CpuMask |
| partition alignment | alignment.c | Align |
| fstab reader and multiboot rewrite | fs_mgr.c, fstab_patcher.c | Fstab, FstabWords, FstabValues |
| device-node search | devno.c | DirScan, DirPath |

Characters are bytes (`Bytes` says so where it matters), unsigned arithmetic is written out modulo 2^32 or 2^64, and a
C string is a place in a buffer (`CStr`). Outside answers (`access`, `stat`, the clock, probing results, what a device
holds, directory contents) are parameters. Where the C code would write behind a buffer, leave it, or never return, the
model has an outcome for that (`past`, `outside`, `over`, `Endless`) and the contract says exactly when it occurs.

## Where the code does less than it promises

- `list_sort` is documented as O(n log n). Once 2^20 nodes have been consumed the top partial list is merged with every
  further block of 2^19 nodes. The bound n*(floor(log2 n) + 3) holds for every comparison below 7 * 2^19 nodes
  (`SortCostLogarithmic`), fails from 56 * 2^19 nodes on when all nodes tie (`TopSlotIsQuadratic`, `SortTies`), and no
  constant factor saves it (`NoConstantFits`). Between those two sizes nothing is claimed about the bound.
- `blkid_free_tag`, called directly, leaves the shortcut of its device dangling exactly for TYPE, LABEL and UUID
  (`FreeTagDirectly`).
- `blkid_find_dev_with_tag` never finds a device of negative priority (`FoundIffNonNegative`, `HiddenByPriority`).
- A save and a read lose or change some devices: those with a '>' in a tag (`BracketLost`), with a blank or a bracket in
  their own name, with a tag name that does not end at its equals sign, or with tags named DEVNO, PRI or TIME.
  `ReadsBackIff`, `FileReadsBackIff` and `FlushAndRead` give the exact condition for a line, a file and a cache.
- `blkid_probe_get_buffer` answers offset 0 from the first covering buffer without moving into it, so a request at a
  negative offset before it can give it other bytes (`MisleadingRun`). That is the only way to get wrong bytes
  (`AlwaysRightIff`, `RequestsRightIff`).
- `blkid_encode_string` documents a buffer of four times the length. It needs four bytes more to succeed
  (`BufferSizes`), and its sprintf() writes one byte behind the buffer exactly when an escape starts four bytes before
  the end (`PastEndNever`, `EncodeString`). `blkid_encode_to_utf8` writes behind a buffer of no bytes.
- `cpulist_parse` refuses the text `cpulist_create` prints for the empty set (`EmptyListRefused`), and its range loop
  never leaves some ranges (`EndsIff` says which, `TopRangeEndless` gives one).
- `cpumask_create` writes its NUL behind a buffer that it has filled (`CpuMaskCreate`, `MaskOverrun`).
- `parse_flags` compares with the length of the flag's name, so an option is taken for a flag, and lost, exactly when a
  flag's name begins it (`WordKeptIff`): rootcontext=... makes a mount read-only (`ReadOnlyIff`). MF_MULTIBOOT and
  MF_NOEMULATEDSD are one bit, so an entry counts as multiboot without that word exactly when a word begins with
  noemulatedsd (`MultibootIff`).
- `patch_fstab` writes five columns of each record. A record whose columns are all carriage returns, vertical tabs and
  form feeds is not read again (`PatchRoundTrip`, `InvisibleRow`).

## Model

| member | source | states |
|---|---|---|
| ListRing.AddBetween | lib/libblkid/include/list.h:51-59 | linking a node between two neighbours of a well-formed ring gives a well-formed ring with the node at that place and all others in order |
| ListRing.Add | lib/libblkid/include/list.h:69-72 | the node becomes the first member |
| ListRing.AddTail | lib/libblkid/include/list.h:82-85 | the node becomes the last member |
| ListRing.Del | lib/libblkid/include/list.h:94-111 | the ring without that member, in order; the node keeps its stale links |
| ListRing.DelInit | lib/libblkid/include/list.h:117-121 | as Del, and the node is an empty ring of its own |
| ListRing.Splice | lib/libblkid/include/list.h:147-161 | the members of one ring stand, in order, before those of the other; the emptied head keeps its stale links |
| ListMerge.Merge | lib/libblkid/include/list.h:214-235 | two disjoint null-terminated runs become one run, ties from the first; at most one callback a node, and exactly one for each node of the first run when that run always wins |
| ListMerge.MergeAndRestoreBackLinks | lib/libblkid/include/list.h:244-283 | the last merge leaves a well-formed doubly linked ring of the merged runs, at one callback a node |
| ListSort.Climb | lib/libblkid/include/list.h:324-327 | one round of the carry joins level lev to the climbing run, empties it, and keeps every higher level and the cost so far |
| ListSort.PartsAreBits | lib/libblkid/include/list.h:319-335 | below 2^20 consumed nodes part[l] is non-empty exactly when bit l of the count is set, and then holds the stable sort of 2^l consecutive input nodes |
| ListSort.ConsumeAll | lib/libblkid/include/list.h:319-335 | after the consuming loop part[max_lev], ..., part[0] are the stably sorted consecutive segments of the whole input, max_lev is the highest used level, and the callbacks lie between the stated bounds |
| ListSort.Collapse | lib/libblkid/include/list.h:337-339 | the closing merges join everything below the top level into one sorted run |
| ListSort.Sort | lib/libblkid/include/list.h:299-342 | for every ring of any length and every comparison that is a total preorder on it: a well-formed ring holding the stable sort of the same nodes; below 7 * 2^19 nodes at most n*(floor(log2 n)+3) callbacks; at least the stated number when all nodes tie |
| StableSorting.SortSorted | lib/libblkid/include/list.h:286-298 | the result Sort is tied to is ordered by the comparison |
| StableSorting.SortStable | lib/libblkid/include/list.h:286-298 | in it, nodes that compare equal keep the order they had |
| StableSorting.SortElements | lib/libblkid/include/list.h:286-298 | it holds exactly the nodes that went in |
| StableSorting.MergedSorts | lib/libblkid/include/list.h:324-341 | merging the sorted runs of two adjacent segments gives the sorted run of both, which is why merging levels is sound |
| SortCounter.LevelIsBit | lib/libblkid/include/list.h:319-335 | the counter arithmetic: a level holds 2^l nodes when bit l of the count is set, and none otherwise |
| SortCounter.SortCostLogarithmic | lib/libblkid/include/list.h:286-298 | the promised bound on the callbacks holds for fewer than 7 * 2^19 nodes |
| SortCounter.TopSlotIsQuadratic | lib/libblkid/include/list.h:324-334 | from 56 * 2^19 nodes on the merges into the overflowing top slot alone exceed it when the older run always wins |
| SortCounter.NoConstantFits | lib/libblkid/include/list.h:286-298 | for every constant c, large enough rings of ties cost more than c*n*(floor(log2 n)+1) |
| ListSort.SortTies | lib/libblkid/include/list.h:299-342 | a ring of n ties, built and sorted: nothing moves, and the cost exceeds the bound from 56 * 2^19 nodes on |
| TagCache.SetTag | lib/libblkid/src/tag.c:123-205 | for a device of a cache: its ordered tag list becomes the old one with that one name set, replaced or removed; the two-way index, the shortcuts and every other device's tags stay right; CHANGED is set exactly when something changed or a tag was to be deleted |
| TagLoose.SetTagLoose | lib/libblkid/src/tag.c:123-205 | for a device of no cache: the same on its own ring and shortcuts |
| TagCache.FreeTag | lib/libblkid/src/tag.c:43-59 | the tag leaves both of its rings and nothing else leaves any |
| TagCache.FreeTagDirectly | lib/libblkid/src/tag.c:43-59 | called directly it keeps the index, and keeps the whole invariant if and only if the tag is not TYPE, LABEL or UUID |
| TagCache.IndexAgreesWithScan | lib/libblkid/src/tag.c:99-205 | in every valid cache the ring of a name holds exactly the tags of that name on the cached devices |
| TagCache.FreedTagUnreachable | lib/libblkid/src/tag.c:43-59 | no ring of a valid cache reaches a freed tag |
| TagIndex.Dev.PairsChange | lib/libblkid/src/tag.c:148-187 | removing or replacing one tag of the ring is removing or setting its name in the list of pairs |
| DevCache.FreeDev | lib/libblkid/src/dev.c:46-65 | the device and all its tags leave the cache, every other device keeps its tags, and the invariant holds again |
| DevCache.ClearTags | lib/libblkid/src/verify.c:144-148 | deleting while iterating empties the device, frees every tag it had, and the iterator never rests on a freed tag |
| DevVerify.ProbeToTags | lib/libblkid/src/verify.c:26-50 | the probed values, under their tag names and in order, are the device's tags |
| DevVerify.Verify | lib/libblkid/src/verify.c:61-191 | the device comes out unchanged, dropped from the cache with its tags, or with exactly the probed tags and the new times, number and flag, as a function of what it was and of what stat(), open(), the prober and the clock answered; every other device keeps its value |
| DevVerify.WhenRefreshed | lib/libblkid/src/verify.c:72-104 | a device that can be probed is refreshed when it was modified behind its (seconds, microseconds) or its time lies ahead; one that was not is kept while it is younger than two seconds, or verified and younger than 200, and refreshed otherwise |
| DevVerify.WhenUnreadable | lib/libblkid/src/verify.c:75-135 | kept as it was for want of permission or of the file, dropped for every other failure |
| DevVerify.TagForIs | lib/libblkid/src/verify.c:36-48 | partition UUID and name get tags of their own, other partition values and names with "_ID" none, everything else its own name |
| DevVerify.ProbedLookup | lib/libblkid/src/verify.c:26-50 | after probing each tag has the last value probed for it, and no other tag is there |
| DevGet.FindOrCreate | lib/libblkid/src/devname.c:58-79 | a known name gives its device; a new accessible one is appended, empty, when creation was asked for; otherwise nothing |
| DevGet.Sweep | lib/libblkid/src/devname.c:92-113 | the walk that may free the entry it stands on ends, never frees the device asked for, leaves no unverified look-alike of it, and leaves every device as the sweep of the values says |
| DevGet.GetDev | lib/libblkid/src/devname.c:50-116 | a device is returned if and only if the name is known, or may be created and is accessible, and verification, if asked for, does not drop it; the ring holds the values that finding, verifying and sweeping give; without verification it is the old ring, or the old ring and the new device |
| GetValue.GotIsThere | lib/libblkid/src/devname.c:58-116 | the device returned is in the cache afterwards, and without one no device has the name |
| GetValue.OthersStay | lib/libblkid/src/devname.c:92-113 | every other device stays as it was, unless a verified device is returned that it looks like without being verified |
| GetValue.LookAlikesGone | lib/libblkid/src/devname.c:92-113 | after a verified device is returned no unverified look-alike is left, and every device that is there was there under its name and priority |
| CacheRun.Run | lib/libblkid/src/tag.c:43-205 | every sequence of set, free, verify, get and free-device calls on devices named at will keeps the two-way index, one head per name, one tag per name and device, and the shortcuts, and leaves the devices with the values that the calls give them one after the other |
| CacheRun.GcCache | lib/libblkid/src/cache.c:176-194 | exactly the devices whose file is gone are freed, the others stay in order, and CHANGED is set if there were any |
| CacheRun.PutCache | lib/libblkid/src/cache.c:129-168 | all devices and all heads are freed |
| CacheRun.NoTagLeft | lib/libblkid/src/cache.c:140-162 | once the devices are freed no ring of a name holds a tag, so the warning about unfreed tags is never printed |
| FindDev.DevHasTag | lib/libblkid/src/tag.c:82-93 | true exactly when the device has the tag, with that value if one is given |
| FindDev.RingFinds | lib/libblkid/src/tag.c:353-370 | the ring of a name holds a tag of a value for exactly the devices that have it |
| FindDev.BestDev | lib/libblkid/src/tag.c:353-370 | the ring scan finds an accessible device of greatest priority among exactly those that a scan of all devices would accept |
| FindDev.FoundIffNonNegative | lib/libblkid/src/tag.c:353-370 | one is found if and only if some acceptable device has priority zero or more |
| FindDev.HiddenByPriority | lib/libblkid/src/tag.c:353-370 | a cache whose only device has the tag and is accessible, at priority -1, and is not found |
| FindDev.VerifyFound | lib/libblkid/src/tag.c:371-375 | verifying what was found leaves fewer unverified devices, or the same device, still the best, that could not be looked at |
| FindDev.FindDevWithTag | lib/libblkid/src/tag.c:336-390 | the retry loop ends on every cache and whatever probing does; what it returns is the best device of the final cache; that cache is what the saved file, the new probing, the full probing and the verifications in between make of the first one, in this order; a device that one of these brings and that every attempt can find makes the lookup succeed without further probing; nothing is returned only when a probing failed or both have been done |
| FindDev.StillFindable | lib/libblkid/src/tag.c:371-375 | no verification of the lookup loses a device that stays verifiable with its tag |
| FindDev.ProbedIsFindable | lib/libblkid/src/tag.c:377-381 | a device that probing makes and tags in an empty cache is one of these, even if it cannot be looked at |
| CNumber.DecBack | lib/libblkid/src/read.c:336-340 | a printed 64-bit time reads back as itself, up to the character behind it |
| CNumber.HexBack | lib/libblkid/src/read.c:332-333 | a printed device number reads back as itself |
| CacheText.UnquoteEscape | lib/libblkid/src/read.c:257-275 | unquoting undoes quoting for every value, with any quotes and backslashes, and stops behind the closing quote |
| CacheFile.SaveReadsBack | lib/libblkid/src/save.c:44-73 | the line printed for a device reads back as the same name, DEVNO, TIME, PRI and ordered tags |
| CacheExact.ReadsBackIff | lib/libblkid/src/save.c:44-73 | a saved line reads back to the same name, numbers and ordered tags if and only if the name and the values hold no character that ends them early, no tag is named DEVNO, PRI or TIME, the numbers are in range, and every name occurs once |
| CacheExact.BracketLost | lib/libblkid/src/read.c:201-215 | a label with a '>' in it, on an otherwise ordinary device, is lost with the device |
| CacheFile.FileReadsBack | lib/libblkid/src/read.c:398-462 | a file of such lines reads back as all the devices, in order |
| CacheExact.FileReadsBackIff | lib/libblkid/src/read.c:398-462 | a file of saved devices reads back as exactly them, in order, if and only if each is one such line with a TYPE |
| CacheExact.ReadReadable | lib/libblkid/src/read.c:318-347 | whatever is read from the attributes of a line without a further bracket could have been printed |
| CacheFormat.SampleLine | lib/libblkid/src/save.c:44-73 | the whole line of a device with a priority and a quote in its label |
| CacheFormat.LineKinds | lib/libblkid/src/read.c:138-163 | empty lines, comments and other elements are skipped, other text is an error |
| CacheFormat.UnquotedToken | lib/libblkid/src/read.c:279-286 | a value without quotes is a word, and reading goes on behind the blank after it |
| CacheParse.SkipOverWord | lib/libblkid/src/read.c:70-88 | the cursor stops behind the word, escaped characters counting as parts of it |
| CacheParse.StripLine | lib/libblkid/src/read.c:90-106 | the buffer holds the line without outer blanks, and nothing outside the line has changed |
| CacheParse.UnquoteInPlace | lib/libblkid/src/read.c:254-275 | the in-place loop leaves the unquoted text, never overwrites a character still to be read, and leaves the string exactly when a backslash is its last character |
| CacheParse.ParseToken | lib/libblkid/src/read.c:240-289 | name, value and rest of the line are what the text means, each a string in the cut buffer |
| CacheParse.ParseDev | lib/libblkid/src/read.c:186-235 | a line to skip, a bad line, or the device's name with the cursor on its attributes |
| CacheReadWrite.SaveQuoted | lib/libblkid/src/save.c:30-43 | the loop appends the quoted value |
| CacheReadWrite.SaveDev | lib/libblkid/src/save.c:44-73 | the loop over the tags appends the device's line |
| CacheReadWrite.FlushCache | lib/libblkid/src/save.c:78-209 | nothing is written for an empty or an unchanged cache; otherwise exactly the devices with a type that are not removable, in order, and CHANGED is cleared |
| CacheReadWrite.WriteDevs | lib/libblkid/src/save.c:161-167 | the writing loop |
| CacheReadWrite.FlushedHaveType | lib/libblkid/src/save.c:163-164 | in a valid cache those with a type are those with a TYPE tag |
| CacheReadWrite.ParseTag | lib/libblkid/src/read.c:318-347 | one token changes one field or one tag of the device, and no other device |
| CacheReadWrite.ParseLine | lib/libblkid/src/read.c:360-391 | nothing for a line without a device; otherwise the named device, found or created, holds the line's fields and tags, and is freed again when it has no TYPE; no other device changes |
| CacheReadWrite.ReadSaved | lib/libblkid/src/read.c:186-391 | reading a saved device's line into a cache without it appends the device with every field and tag as saved, if its file is accessible |
| CacheRoundTrip.ReadCache | lib/libblkid/src/read.c:398-462 | skipped when the file is the one last read or the cache has changes; otherwise, from any cache and any text, the devices are what the lines make of them one after the other, up to exactly the first line on which the cursor leaves its buffer, and CHANGED is cleared; a saved file read into an empty cache gives exactly the devices whose file is there, in order |
| CacheRing.RingNext | lib/libblkid/src/read.c:360-391 | one line: the device it names, found or made, has its fields and tags, or is gone without a TYPE; all others and the order stay |
| CacheRoundTrip.SaveableIff | lib/libblkid/src/save.c:161-167 | in a valid cache only the characters of names and values and the range of the numbers decide whether the file can carry its devices |
| CacheRoundTrip.FlushAndRead | lib/libblkid/src/save.c:78-209 | flush, then read into a new cache: the written devices whose file is there, in order, with the same names, numbers and tags; when all their files are there, they come back if and only if a line can carry each of them |
| ProbeChain.Probe.DoProbe | lib/libblkid/src/probe.c:911-964 | from any position, also after the end, it ends and reports the first match or failure in chain-then-index order; at the end it forgets the current chain |
| ProbeChain.Probe.ReportsAll | lib/libblkid/src/probe.c:911-964 | without failures the reports from a position are exactly the matching detectors still to come, once each and in order |
| ProbeChain.Probe.FinishedReports | lib/libblkid/src/probe.c:862-964 | after the end nothing is reported, and what fails again is a chain that cannot be begun |
| ProbeChain.Probe.ProbeLoop | lib/libblkid/src/probe.c:896-964 | the documented loop ends from every state and sees every report from its position on |
| ProbeChain.Probe.ProbeTwice | lib/libblkid/src/probe.c:896-964 | from a reset probe it sees every matching detector of the running chains exactly once, in order; run again after the end, none |
| ProbeChain.Probe.StepBack | lib/libblkid/src/probe.c:1110-1146 | the index goes one back, and at a chain's beginning to the chain before; -1 and nothing changed before the first call and after the end |
| ProbeChain.Probe.StepBackAfter | lib/libblkid/src/probe.c:1061-1146 | after a report and a step back the next call considers that detector first, whatever the device then holds |
| ProbeChain.Probe.AfterEnd | lib/libblkid/src/probe.c:862-870 | after the end there is no step back, and the next call says so again unless an enabled chain cannot be begun, where it fails |
| ProbeChain.Probe.Reset | lib/libblkid/src/probe.c:398-412 | from any state, the state before the first call |
| ProbeBuffer.GetBuffer | lib/libblkid/src/probe.c:538-617 | for every offset and every state of the buffers: nothing from an empty area, otherwise what the device holds at the place shown by the probe that serves, which is the place asked for except at offset zero; so the bytes asked for, whether read, found in a buffer or delegated, when no buffer begins before its area |
| ProbeBuffer.AlwaysRightIff | lib/libblkid/src/probe.c:564-617 | a request is answered rightly whatever the device holds, if and only if it is not a request for bytes at offset zero whose first covering buffer begins before the area |
| ProbeBuffer.Requests | lib/libblkid/src/probe.c:538-617 | a run of requests at any offsets: what each is answered with, given only the requests before it |
| ProbeBuffer.RequestsRightIff | lib/libblkid/src/probe.c:564-617 | such a run is right on every device if and only if none of its requests is misled in that way by those before it |
| ProbeBuffer.MisleadingRun | lib/libblkid/src/probe.c:564-617 | a run of two requests whose second gets the byte before the area |
| ProbeBuffer.SetDimension | lib/libblkid/src/probe.c:778-803 | a new area never sees bytes of the old one |
| ProbeBuffer.History | lib/libblkid/src/probe.c:538-803 | every history of reads, moves, resets and clonings answers like direct reads of the device |
| Md5Block.SameFunctions | lib/libblkid/lib/md5.c:158-162 | the shortened F1 to F4 are F, G, H and I of section 3.4 of RFC 1321 on all words |
| Md5Block.Transform | lib/libblkid/lib/md5.c:173-254 | the 64 unrolled lines are the four rounds of section 3.4 of RFC 1321 |
| Md5.CarryTrick | lib/libblkid/lib/md5.c:66-71 | the two counter words always hold eight times the bytes modulo 2^64 |
| Md5.LengthBytes | lib/libblkid/lib/md5.c:141-146 | they are the 64-bit little-endian length of section 3.2 of RFC 1321 |
| Md5.JoinedBytes | lib/libblkid/lib/md5.c:82-99 | the words of a block hold their bytes low-order byte first, as section 2 of RFC 1321 has it |
| Md5.PaddedParts | lib/libblkid/lib/md5.c:115-146 | the one or two closing blocks are the padding of section 3.1 of RFC 1321 |
| Md5.Context.Update | lib/libblkid/lib/md5.c:62-104 | the context comes to stand for the longer message |
| Md5.Context.Final | lib/libblkid/lib/md5.c:110-152 | the digest is that of the whole message |
| Md5.DigestOf | lib/libblkid/lib/md5.c:47-152 | however a message is cut into calls, the digest is the one-shot digest |
| Crc32.TableIs | lib/libblkid/lib/crc32.c:26-99 | each of the 256 entries is eight shift/xor steps of its index |
| Crc32.TableStep | lib/libblkid/lib/crc32.c:110-115 | one table step is eight bit steps |
| Crc32.Checksum | lib/libblkid/lib/crc32.c:106-117 | for every seed and buffer, the bit-at-a-time register of the reflected polynomial 0xedb88320 |
| Crc32.RegisterParts | lib/libblkid/lib/crc32.c:106-117 | a buffer may be cut anywhere, the first checksum seeding the second |
| Crc32.RegisterLinear | lib/libblkid/lib/crc32.c:106-117 | the register is xor-linear in seed and buffer |
| Crc64.TableIs | lib/libblkid/lib/crc64.c:24-90 | each of the 256 entries is eight shift/xor steps of its index in the top byte |
| Crc64.TableStep | lib/libblkid/lib/crc64.c:101-106 | one table step is eight bit steps, most significant bit first |
| Crc64.Checksum | lib/libblkid/lib/crc64.c:97-108 | for every seed and buffer, the bit-at-a-time register |
| Crc64.RegisterParts | lib/libblkid/lib/crc64.c:97-108 | a buffer may be cut anywhere, the first checksum seeding the second |
| Crc64.RegisterLinear | lib/libblkid/lib/crc64.c:97-108 | the register is xor-linear in seed and buffer |
| MangleText.Mangle | lib/libblkid/lib/mangle.c:23-48 | the loop writes the mangled text into a buffer that is always large enough |
| MangleText.UnescapeToBuffer | lib/libblkid/lib/mangle.c:51-93 | both loops write the unescaped text and its NUL, also when source and destination are one buffer |
| MangleText.UnmangleMangle | lib/libblkid/lib/mangle.c:23-71 | unmangling undoes mangling for every string that fits |
| MangleText.MangledClean | lib/libblkid/lib/mangle.c:23-48 | no blank, tab or newline is left; a text is unchanged exactly when it has none, and no backslash |
| MangleText.UnescapedKeeps | lib/libblkid/lib/mangle.c:51-93 | a text without escapes is copied as it is, backslashes included |
| Utf8.DecodeOctets | lib/libblkid/src/encode.c:52-89 | decoding undoes the encoding of section 3 of RFC 3629, whatever follows |
| Utf8.ValidIff | lib/libblkid/src/encode.c:122-152 | a length above one is returned exactly for the shortest form of a code point beyond ASCII that is no surrogate, not in U+FDD0..U+FDEF and does not end in FFFF |
| Encode.ValidUnichar | lib/libblkid/src/encode.c:122-152 | the loop over the buffer computes that length |
| Encode.EncodeString | lib/libblkid/src/encode.c:283-320 | 0 exactly when the whole encoding is in the buffer, and a NUL behind the buffer exactly when an escape starts four bytes before its end |
| Encode.UnhexEncoded | lib/libblkid/src/encode.c:283-320 | unhexmangle_to_buffer() recovers every encoded string |
| Encode.EncodedSafe | lib/libblkid/src/encode.c:283-320 | the encoding holds only whitelisted characters, \xHH escapes and valid UTF-8 |
| Encode.EncodedSameIff | lib/libblkid/src/encode.c:182-193 | an ASCII text is its own encoding exactly when it holds only letters, digits and "#+-.:=@_" |
| Encode.BufferSizes | lib/libblkid/src/encode.c:271-282 | a buffer of four times the length and four is enough for every string; four times the length, as documented, is not |
| Encode.PastEndNever | lib/libblkid/src/encode.c:271-282 | a buffer of more than four times the length is never overrun; one blank overruns a buffer of four |
| Encode.EncodeToUtf8 | lib/libblkid/src/encode.c:236-269 | the longest part of the units that fits, one NUL and nothing else; behind the buffer exactly when it has no bytes |
| Encode.DecodeUnits | lib/libblkid/src/encode.c:236-269 | decoding what was converted gives back the units |
| Encode.UnitsBack | lib/libblkid/src/encode.c:242-246 | units are read back from their bytes, low byte first or high byte first; an odd byte at the end is left alone |
| Encode.TakenEnds | lib/libblkid/src/encode.c:236-269 | the conversion stops at the end, at a zero unit, or where the next one does not fit with its NUL |
| CpuRange.EndsIff | lib/libblkid/lib/cpuset.c:314-319 | the loop leaves the range if and only if the last number congruent to its start, modulo the common power of two of stride and 2^32, is above its end |
| CpuRange.SingleSteps | lib/libblkid/lib/cpuset.c:314-319 | with stride one it never ends exactly for ranges up to 2^32 - 1 |
| CpuRange.VisitedAll | lib/libblkid/lib/cpuset.c:314-319 | stride one marks the whole range |
| CpuText.TopRangeEndless | lib/libblkid/lib/cpuset.c:277-325 | texts for which cpulist_parse() does not return, or stops having set every number of the range that fits |
| CpuText.WrappingRangeEnds | lib/libblkid/lib/cpuset.c:314-319 | a stride that wraps inside its range and ends all the same |
| CpuText.EmptyListRefused | lib/libblkid/lib/cpuset.c:277-325 | the text of the empty set is an error |
| CpuText.StrideReads | lib/libblkid/lib/cpuset.c:293-310 | a-b:s reads as that range and stride; stride zero is an error |
| CpuText.StrideEntry | lib/libblkid/lib/cpuset.c:286-320 | such an entry sets what its walk visits before the rest of the list is read |
| CpuText.ListRoundTrip | lib/libblkid/lib/cpuset.c:152-325 | parsing the printed list of increasing numbers gives exactly those numbers |
| CpuText.GroupsCover | lib/libblkid/lib/cpuset.c:160-187 | the printed runs hold exactly the numbers of the set |
| CpuSet.CpuListCreate | lib/libblkid/lib/cpuset.c:152-193 | the text of the maximal runs, or failure exactly when it does not fit with its last comma |
| CpuSet.MarkRange | lib/libblkid/lib/cpuset.c:314-319 | one range sets exactly the numbers its walk visits, or those before the first that is too high, or never ends |
| CpuSet.CpuListParse | lib/libblkid/lib/cpuset.c:277-325 | return code and set are what the text means, for every return code |
| CpuSet.ParseCreated | lib/libblkid/lib/cpuset.c:152-325 | parsing what was printed for a set that is not empty gives the set back, whatever it held |
| CpuSet.ListMaker.Feed | lib/libblkid/libfdisk/src/ask.c:353-406 | one more number keeps the run state of the streaming form, failing exactly when the text so far does not fit |
| CpuSet.ListMaker.Finish | lib/libblkid/libfdisk/src/ask.c:353-406 | the buffer holds the list of all numbers fed, in numbers or in letters |
| CpuSet.StringList | lib/libblkid/libfdisk/src/ask.c:353-406 | feeding numbers one by one and then -1 gives the text of all of them, or fails exactly when it does not fit |
| CpuSet.NumberRuns | lib/libblkid/lib/cpuset.c:160-187 | runs of one, two and four numbers as they are printed |
| CpuSet.LetterRuns | lib/libblkid/libfdisk/src/ask.c:352-385 | the same runs in letters of the alphabet |
| CpuSet.SameList | lib/libblkid/libfdisk/src/ask.c:353-406 | that text is what cpulist_create() prints for the set shifted by one |
| CpuMask.CpuMaskCreate | lib/libblkid/lib/cpuset.c:198-226 | the hexadecimal digits, cut at the buffer's end, beginning behind the leading zeros; the NUL falls outside exactly when the digits fill the whole buffer |
| CpuMask.MaskOverrun | lib/libblkid/lib/cpuset.c:198-226 | a buffer on which it does |
| CpuMask.CpuMaskParse | lib/libblkid/lib/cpuset.c:231-267 | return code and set are what the text means, and whether the cursor left the text |
| CpuMask.MaskRoundTrip | lib/libblkid/lib/cpuset.c:198-267 | parsing the printed mask gives the set back, the empty one included |
| CpuMask.MaskValue | lib/libblkid/lib/cpuset.c:198-226 | the mask is the hexadecimal number whose i-th bit is CPU i |
| CpuMask.MaskSpelling | lib/libblkid/lib/cpuset.c:231-267 | commas between digits and 0x in front of them do not change what a mask means |
| Align.AndMask | lib/libblkid/libfdisk/src/alignment.c:39-60 | masking with a power of two less one is the remainder |
| Align.BoundaryIs | lib/libblkid/libfdisk/src/alignment.c:39-60 | the wrapped mask test is true exactly for addresses at the compensation modulo the granularity |
| Align.AlignIsRounded | lib/libblkid/libfdisk/src/alignment.c:74-118 | away from the ends nothing wraps and the result is plain rounding with the compensation |
| Align.AlignPromises | lib/libblkid/libfdisk/src/alignment.c:74-118 | always on a physical block; up is less than a grain away, down is never up |
| Align.InRangePromises | lib/libblkid/libfdisk/src/alignment.c:131-153 | on a physical block and inside the given range whenever the aligned range is not empty |
| Align.BelowFirst | lib/libblkid/libfdisk/src/alignment.c:78-84 | below an aligned first address every unaligned address goes there |
| Fstab.ParseFlags | lib/fs_mgr/fs_mgr.c:125-238 | flags, values and unknown options are what the comma-separated words mean |
| Fstab.ReadFstab | lib/fs_mgr/fs_mgr.c:240-414 | counting pass and filling pass give the records of the text, or none at a missing column |
| Fstab.GetEntry | lib/fs_mgr/fs_mgr.c:718-736 | the first record whose mount point is the path or begins it up to a slash; none exactly when no record does |
| Fstab.MatchesIff | lib/fs_mgr/fs_mgr.c:718-736 | a mount point takes in itself and what lies below it, and no name that merely begins with it |
| Fstab.PatchFstab | src/modules/fstab_patcher.c:37-118 | the loop writes the rewritten rows |
| Fstab.ReaderWellFormed | lib/fs_mgr/fs_mgr.c:240-414 | the records of every accepted text have five columns without blanks and no comment sign in front |
| Fstab.PatchRoundTrip | src/modules/fstab_patcher.c:23-122 | for every accepted text, re-reading the written file gives the rewritten records, in order, if and only if each has a visible character in its columns or its device replaced |
| Fstab.InvisibleRow | lib/fs_mgr/fs_mgr.c:262-277 | an accepted text whose rewritten file is refused |
| Fstab.MainRowKept | src/modules/fstab_patcher.c:71-93 | a record keeps mount point, type and fs_mgr flags; only a multiboot match changes its device, and only a bind match its options |
| Fstab.RemountRow | src/modules/fstab_patcher.c:95-117 | one extra record exactly after a bind match other than /system, with the original flags and MS_REMOUNT and the same file-system options |
| Fstab.RemountFlags | lib/fs_mgr/fs_mgr.c:125-238 | "remount," before any option list adds MS_REMOUNT and changes nothing else |
| FstabWords.TokenIff | lib/fs_mgr/fs_mgr.c:147-153 | strtok_r() delivers exactly the maximal runs between delimiters |
| FstabWords.FlagBitIff | lib/fs_mgr/fs_mgr.c:147-210 | for every table: a bit is set if and only if the first name that begins some word stands for it |
| FstabWords.FlagSetIff | lib/fs_mgr/fs_mgr.c:48-82 | in both tables no name begins another, so any name that begins the word decides |
| FstabWords.OptionsAre | lib/fs_mgr/fs_mgr.c:212-235 | the options left over are the other words, in their order |
| FstabWords.WordKeptIff | lib/fs_mgr/fs_mgr.c:147-235 | a word survives as an option if and only if no name of the table begins it |
| FstabWords.ReadOnlyIff | lib/fs_mgr/fs_mgr.c:147-154 | a mount is read-only if and only if some option begins with "ro", and no such option survives |
| FstabWords.MultibootIff | lib/fs_mgr/fs_mgr_priv.h:70-76 | an entry counts as multiboot if and only if some word of its fs_mgr column begins with multiboot or with noemulatedsd |
| FstabValues.LengthIs | lib/fs_mgr/fs_mgr.c:160-167 | the length is the number of the last length= word |
| FstabValues.KeyLocationIs | lib/fs_mgr/fs_mgr.c:154-159 | the key location is the text of the last encryptable= word |
| FstabValues.SwapPriorityIs | lib/fs_mgr/fs_mgr.c:199-204 | the swap priority is the number of the last swapprio= word |
| FstabValues.ZramSizeIs | lib/fs_mgr/fs_mgr.c:205-209 | the zram size is the number of the last zramsize= word |
| FstabValues.VolumeIs | lib/fs_mgr/fs_mgr.c:168-198 | label and partition are those of the last voldmanaged= word with a colon, auto being partition -1 |
| FstabValues.DefaultValues | lib/fs_mgr/fs_mgr.c:134-140 | without a word of a kind its value is the one that stands for its absence |
| DirScan.ScanDir | lib/libblkid/src/devno.c:108-170 | the first entry that is the device; without one, the eligible subdirectories are on the stack |
| DirScan.LevelIff | lib/libblkid/src/devno.c:74-91 | the levels hold exactly the directories reached through eligible subdirectories, by depth |
| DirScan.VisitedOnce | lib/libblkid/src/devno.c:182-215 | the directories opened are opened once each, by depth |
| DirScan.ScandevDevnoToDevpath | lib/libblkid/src/devno.c:182-215 | the two-list search ends on every finite tree; it finds a device of least depth, or nothing exactly when no eligible directory holds it |
| DirPath.BelowNamed | lib/libblkid/src/devno.c:74-91 | every directory of every level is named by the start directory and the names on the way to it |
| DirPath.AnswerOpens | lib/libblkid/src/devno.c:108-215 | the path found is the name of a start directory followed by names that lead from there to a block device of that number |
| DirPath.AnswerSplits | lib/libblkid/src/devno.c:108-215 | split at its slashes it gives these names, as names of directory entries hold none |

## Left out

- Allocation failures, NULL arguments and debug output.
- Rings of the tag cache: the devices, heads and tags of the cache are class instances whose rings are sequence fields,
  and `ring` names the head a tag is linked to. The pointer operations that realise such rings are proved in ListRing;
  that the cache code calls them on disjoint rings is not shown, and aliasing of `list_head` fields with stale links is
  not modelled.
- FreeTag: the unlinking of the two list nodes is removal from the two ring sequences, for the reason just given.
- FindDevWithTag: that the given device type and value are non-NULL, and the reading of the cache file, are not
  modelled; probing is any sequence of cache calls that an oracle chooses.
- FlushCache: the directory and permission tests, write errors, and the temporary file with its renaming.
- ReadCache: lines beyond the 4096-byte buffer, which fgets() would deliver in parts; each line is in a buffer of its
  own size. A line continued by a backslash is not modelled either: the character tested is the newline unless a NUL
  byte comes before it. Whether the file has changed since the last reading is a parameter.
- ParseToken: what happens after the cursor has left its string; `over` reports it.
- parse_start() and parse_end() are modelled inside ParseDev; parse_xml() and parse_word(), which nothing calls any
  more, are not.
- DoProbe: drivers are an abstract detector oracle, and what a chain does before its first detector is fixed for a probe
  (run, give up, or fail; superblocks_probe() has no early failure); the value list, blkid_probe_chain_reset_vals(), the
  filter bitmaps (only which chains and detectors run), blkid_do_wipe(), and the safe and full probing loops.
- GetBuffer: read errors other than a short read, 64-bit overflow of offsets and lengths, and CDROM and floppy
  detection in blkid_probe_set_device().
- Transform: the byte order of the words; byteReverse() of big-endian machines.
- crc32.c and crc64.c have one module each: the registers differ in width and direction, and the two proofs are alike.
- EncodeString: is_whitelisted() with a list of its own, which only replace_chars() passes; replace_whitespace() and
  replace_chars().
- UnescapeToBuffer: source and destination in one buffer only at the same place.
- CpuListParse and CpuMaskParse take the text as a value; the sets are arrays, and numbers beyond them are ignored as
  CPU_SET_S() does.
- AlignPromises: sizes that are no powers of two; fdisk_reset_alignment() and the discovery of the topology.
- ReadFstab: the layouts of TWRP and CWM, and option strings beyond the 1024-byte buffer of parse_flags().
- PatchFstab: the second-stage fix-up for grub and the search for the multiboot fstab.
- ScanDir: file systems without d_type and directories that change while they are read.
- Mounting, loop devices, ptrace, sysfs and /proc, the partition and superblock drivers, locale and size parsing.
