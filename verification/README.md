# Proofs about the core of an XNU derivative

A Dafny model of the algorithms and protocols in this kernel tree that carry real invariants, with
proofs of what they promise. `dafny verify dfyconfig.toml` checks the whole project.

| modules | what they model |
|---|---|
| `LzssOrder`, `LzssForest`, `LzssRelink`, `LzssSearch`, `LzssDelete`, `LzssEncodeState` | the 256 search trees of the LZSS encoder, kept in three integer arrays and relinked in place |
| `LzssDecode`, `LzssLaws`, `Adler32` | the LZSS decoder over a ring buffer; what it puts out, told by ring positions; the checksum with delayed reduction |
| `MacLock`, `MacEffects`, `MacTraversal`, `MacRaces` | the busy count, mutex and sleep protocol around the policy list, with any number of threads; what its steps do to the list, and over a run add up to; what a traversal sees while others load, unload and grow the list; runs in which it misses a policy |
| `MacPolicyList`, `MacErrors` | the policy table, its traversal, and how answers of policies are combined |
| `MacLabels` | the two label namespace lists and their listeners |
| `Sha256`, `Sha256Known`, `BootGate` | the measurement code against FIPS 180-4; its functions bit by bit, its constants as roots of primes, and a published digest; the staged boot run that uses it |
| `KextVersion`, `KextLaws` | the version parser and printer, and the packed number between them; which number each text stands for |
| `Kcdata` | the safe iterators over unchecked kcdata bytes |
| `Console` | the scrolling 80 by 25 console |
| `Basics` | types the other modules share |

How the models are built:

- **Search trees.** `EncodeState` has the three link arrays as they are in the code, with the scratch slot N and
  the roots at N + 1 + c. A ghost forest of inductive trees is kept beside them; `Rep` and `PathRep` say that the
  arrays encode it. A path with a hole (`Path`) stands for the place a descent has reached. N is any number and
  F any positive number; the descent's termination and every array index are proved. The text is fixed during a run.
- **Decoder.** The reference is `Parse` (bytes to tokens) followed by `Expand` over a history that only grows.
  The part of the ring the code does not initialise is a parameter, `stack`, so the theorem holds for any garbage
  in it. The room for output is at least one byte, because the code tests it after each store. The masks with
  N - 1 are written as remainders, and shifts and disjoint ORs as divisions and sums.
- **Checksum.** The width of `unsigned long` is a parameter of 32 bits or more.
- **Lock.** A state machine: each thread has a program counter inside one of the operations, and a step moves one
  thread by one lock, sleep, wake-up, counter or list access, seen by all at once. A wake-up reaches every sleeper.
  The list is the table of `MacPolicyList`, and only its loads, unloads and growth change it. What is read without
  the mutex is read piece by piece: the static loop tests the mark, reads the array pointer and then the entry, and
  the first test of `mac_policy_list_conditional_busy` reads the number of policies and then the mark. A load is two
  steps, as it raises the mark before it enters and counts its policy. Growth is two steps, as it frees the old
  array before it replaces the pointer; a read from a freed array finds nothing. Unloading and the second half of a
  load are several writes in one step. That is harmless: of those writes, a reader without the mutex sees only the
  number of policies, which falls last and rises last, and the entry of the policy that is being loaded. Two
  properties rest on `KASSERT` lines and are proved: the count is not negative after it is lowered, and it is 0 when
  exclusivity is given up.
- **Policy table.** The growing-table branch of the source. Registration before the end of start-up is sequential.
  The documented rule that static policies are never unloaded is not enforced by the code, so it is a hypothesis
  on runs (`Next`); `RemovedOk` shows exactly which removals keep the invariant.
- **SHA-256.** Word operations are a record of functions (`Ops`), so that the block loops are proved once for any
  word type; `FipsOps` has the bit-vector functions and constants of FIPS 180-4 (sections 4.1.2, 4.2.2, 5.1.1,
  5.3.3 and 6.2.2). The compression loop appears twice in the source, for payload blocks and for tail blocks, with
  the same text; both are `CompressBlock`. The payload is shorter than 2^61 bytes, as FIPS 180-4 requires.
- **Boot gate.** Callbacks are arbitrary functions of everything called before them, and any of them may be
  missing. A run returns its result and the trace of its calls. The image header takes 64 bytes (64-bit layout).
- **Versions.** A string is a sequence of characters read with a terminator past its end. The labels that the
  parser jumps to are methods, and its four digit loops, which differ only in their limit and in whether a period
  may follow, are one method, `ScanNumber`. The library's string routines are `Put`, and a buffer's length is its array's.
- **kcdata.** Addresses are unbounded, so there is no address wraparound; a buffer lies inside memory and nothing
  is assumed of its bytes. Masks and shifts of the header fields are remainders and divisions.

What a specification function means is proved apart from its own text, in numerals, bytes and strings where it can be:
the decoder's expansion by ring positions (`LzssLaws`), the table's operations entry by entry (`LoadMeans`,
`UnloadMeans`, `Register`), the protocol's steps by their effect on entries (`MacEffects`), SHA-256 by bit laws, root
inequalities and the digest of "abc" (`Sha256Known`), versions by texts and their numbers (`KextLaws`), and headers,
errors, keys and screens by the members whose names end in `InNumerals`, `Means`, `Bytes`, `Sizes` or `Order`.

Where the code does less than its comments promise, the exact condition is proved instead:

- A namespace can be listed twice if its name is longer than the field it is cut to (`MacLabels.LongNameListedTwice`;
  exactly when: `MacLabels.AddNameOk`).
- Removing a policy's listeners removes one of them (`MacLabels.RemoveListenerCounts`), so a policy that came and
  went has stopped listening exactly when at most one of its names was not on the static list
  (`MacLabels.UnloadIsComplete`); two names leave a listener (`MacLabels.TwoNamesLeaveListener`).
- Unloading keeps the table's invariant exactly for dynamic handles other than a lone handle 0
  (`MacPolicyList.RemovedOk`); both kinds of failing handle occur (`MacPolicyList.LoneHandleBreaks`,
  `MacPolicyList.StaticUnloadBreaks`).
- A traversal visits a policy that is loaded all the while exactly when, in the static part it walks, it does not
  read the policy's entry through a pointer to a freed array, and beyond that part its unlocked test reads more
  policies than the mark (`MacTraversal.VisitedExactlyWhen`). That holds when neither growth nor a static load is
  under way (`MacTraversal.QuietVisitsAll`), and without growth for all handles up to the one right after the static
  part (`MacTraversal.NearMarkIsVisited`). A late load of a static policy can hide a single dynamic policy at a higher
  handle (`MacRaces.StaticLoadHidesPolicy`), and growth of a full list can hide any static policy
  (`MacRaces.GrowthHidesPolicy`). Both kinds of list are reached (`MacRaces.HiddenPolicyIsReached`,
  `MacRaces.FullListIsReached`).
- The choice between two different unnamed errors depends on their order (`MacErrors.SelectCommutes`).
- A printed number parses back exactly when it is a canonical version (`KextVersion.PrintThenParseNumber`).

## Model

| member | source | states |
|---|---|---|
| LzssEncodeState.EncodeState.InitState | libkern/mkext.c:187-203 | the trees are a well-formed empty forest and the text is blank up to N - F |
| LzssEncodeState.EncodeState.InsertNode | libkern/mkext.c:213-265 | keeps 256 ordered, acyclic, mutually linked trees; adds exactly r, dropping only a node with the same F bytes; the reported length is the largest common prefix with any live node and the reported position attains it |
| LzssEncodeState.EncodeState.DeleteNode | libkern/mkext.c:268-301 | keeps the forest; removes exactly p and leaves every in-order sequence otherwise unchanged; an absent node changes nothing |
| LzssEncodeState.Run | libkern/mkext.c:187-301 | over any sequence of inserts of absent nodes and deletes the forest stays well formed, holds exactly the nodes a set replay gives, and every insert reported the longest match at its moment |
| LzssEncodeState.Apply | libkern/mkext.c:213-301 | one operation of such a run |
| LzssEncodeState.EncodeState.Descend | libkern/mkext.c:219-253 | the descent ends at an empty link of the right tree with every key's match bounded by the length found, or at a node with the same string |
| LzssEncodeState.EncodeState.Child | libkern/mkext.c:225-241 | the link followed is empty exactly where the subtree is |
| LzssEncodeState.EncodeState.Compare | libkern/mkext.c:242-246 | the loop finds the common prefix length, and the sign gives the lexicographic order |
| LzssEncodeState.EncodeState.InsertLeaf | libkern/mkext.c:229-239 | a new leaf at the bottom keeps the forest |
| LzssEncodeState.EncodeState.InsertReplacing | libkern/mkext.c:254-264 | taking over all links of an equal node keeps the forest |
| LzssEncodeState.EncodeState.Rightmost | libkern/mkext.c:281-285 | the loop ends at the in-order predecessor |
| LzssEncodeState.EncodeState.RaisePredecessor | libkern/mkext.c:281-300 | the two-child case keeps the in-order sequence but for p |
| LzssEncodeState.EncodeState.Unlink | libkern/mkext.c:276-300 | all three cases of removal give a tree with the old in-order sequence without p |
| LzssEncodeState.EncodeState.SpliceOut | libkern/mkext.c:294-300 | the new links are those of the value-level detachment |
| LzssEncodeState.TreeMatchIsLongest | libkern/mkext.c:213-265 | the best match in the tree of the first byte is the best among all live nodes |
| LzssEncodeState.SameStringSameNode | libkern/mkext.c:205-212 | no two live nodes have the same F bytes |
| LzssEncodeState.InsertedLive | libkern/mkext.c:205-265 | the nodes after an insert are the old ones without a full match, and r |
| LzssEncodeState.DeletedLive | libkern/mkext.c:268-301 | the nodes after a delete are the old ones without p |
| LzssEncodeState.LiveTrees | libkern/mkext.c:178-186 | a node has a parent exactly when the tree of its first byte lists it |
| LzssSearch.Nearer | libkern/mkext.c:224-253 | in a sorted list the longest common prefix is with a neighbour: a key farther away on the same side matches no better |
| LzssSearch.GoRight | libkern/mkext.c:225-232 | going right keeps the bound on every key left behind |
| LzssSearch.GoLeft | libkern/mkext.c:233-241 | going left keeps the bound on every key left behind |
| LzssSearch.Bottom | libkern/mkext.c:224-253 | a descent that reached an empty link has bounded the match with every key of the tree |
| LzssSearch.InsertOrder | libkern/mkext.c:225-241 | a leaf put where the descent ends keeps the strict order |
| LzssSearch.SameStringOrder | libkern/mkext.c:254-264 | a node may replace another with the same string without changing the order |
| LzssRelink.AttachKeepsForest | libkern/mkext.c:222-239 | hanging a leaf at an empty link keeps all 256 trees |
| LzssRelink.SubstituteKeepsForest | libkern/mkext.c:254-264 | putting r in place of p keeps all 256 trees |
| LzssRelink.DetachKeepsForest | libkern/mkext.c:294-300 | replacing a node by one of its subtrees keeps all 256 trees |
| LzssRelink.Relink | libkern/mkext.c:254-300 | changing one link and the nodes behind it, to an ordered tree, replaces that subtree and leaves the other trees as they are |
| LzssDelete.DeepIsMoveUp | libkern/mkext.c:282-293 | the six assignments of the deep case move the predecessor into p's place |
| LzssDelete.ShallowIsMoveUp | libkern/mkext.c:291-293 | so do the two of the shallow case |
| LzssDelete.MoveUpOrder | libkern/mkext.c:280-300 | moving the predecessor up keeps the in-order sequence but for p |
| LzssForest.PlugInOrder | libkern/mkext.c:178-186 | the in-order sequence of a tree splits at any path |
| LzssForest.PlugRep | libkern/mkext.c:178-186 | arrays encode a tree exactly when they encode path and subtree |
| LzssForest.OrderedConcat | libkern/mkext.c:205-212 | order of a concatenation, both directions |
| LzssForest.FindPath | libkern/mkext.c:178-186 | every key of a tree has a path |
| LzssOrder.Trichotomy | libkern/mkext.c:242-246 | two strings of F bytes are equal or ordered one way, and a full match means equal |
| LzssOrder.Between | libkern/mkext.c:242-252 | a string between two others matches each at least as far as they match each other |
| LzssDecode.Decompress | libkern/mkext.c:108-174 | for every source, room and initial ring content the output is the first bytes of the reference expansion, which `LzssLaws` characterises byte by byte; its count is returned and nothing else is written |
| LzssDecode.DecompressPacked | libkern/mkext.c:108-174 | packing any token list and decoding it gives the list's expansion cut to the room |
| LzssDecode.ParsePack | libkern/mkext.c:126-171 | reading back packed groups of eight gives the tokens again |
| LzssDecode.NextFlag | libkern/mkext.c:128-136 | the shifted marker bit is gone exactly when all eight flags were served, and the low bit is the next flag |
| LzssDecode.NextFlags | libkern/mkext.c:128-135 | a new flag byte is read exactly when needed; at the end of the source the expansion is complete |
| LzssDecode.RingPush | libkern/mkext.c:146-147 | a byte stored at r keeps the ring the last N bytes of history |
| LzssDecode.RingAt | libkern/mkext.c:162 | ring position pos holds the history byte at its distance, between 1 and N |
| LzssDecode.RingRead | libkern/mkext.c:161-169 | the k-th byte of a copy comes from the same distance, also after earlier bytes of the copy were stored |
| LzssDecode.CopyBackRepeats | libkern/mkext.c:161-169 | an overlapping copy repeats the last bytes of the history with the distance as period |
| LzssDecode.ExpandBegins | libkern/mkext.c:127-171 | decoding only appends |
| LzssDecode.Emit | libkern/mkext.c:142-147 | one byte goes to output and ring, unless the output is full |
| LzssDecode.CopyRun | libkern/mkext.c:161-169 | the copy loop appends the token's bytes or fills the output |
| LzssDecode.LiteralItem | libkern/mkext.c:136-147 | a literal, the end of the source or the end of the room |
| LzssDecode.CopyItem | libkern/mkext.c:148-170 | a copy, the end of the source in either of its bytes or the end of the room |
| LzssDecode.ReadCopy | libkern/mkext.c:149-160 | the two bytes give the position and length of the token |
| LzssDecode.FillRing | libkern/mkext.c:112-125 | 0x20 below position 4078, what the memory held above |
| LzssDecode.DecodeLoop | libkern/mkext.c:127-173 | the loop ends and has written the expansion, or as much as fits |
| Adler32.MkextAdler32 | libkern/mkext.c:42-68 | equals the byte-at-a-time checksum of RFC 1950 (sections 2.2 and 8.2) for every buffer and length, with sums that wrap at 2^32 or more |
| Adler32.ChunkBound | libkern/mkext.c:34 | 5552 is exactly the largest number of bytes after which the second sum still fits 32 bits |
| Adler32.ChecksumInNumerals | libkern/mkext.c:42-68 | the checksum is 65536 times (n plus each byte times its place from the end) modulo 65521, plus one plus the bytes' sum modulo 65521 |
| Adler32.ChecksumIsTwoSums | libkern/mkext.c:42-68 | the checksum is a plain and a position-weighted sum modulo 65521 |
| Adler32.Chunk | libkern/mkext.c:51-63 | the unrolled loop and the tail loop add the same bytes, and nothing wraps |
| Adler32.Do16Tracks | libkern/mkext.c:36-40 | sixteen unrolled additions are sixteen single ones |
| Adler32.Reduced | libkern/mkext.c:64-65 | reducing at the end of a chunk gives the checksum so far |
| LzssLaws.CopyReadsWritten | libkern/mkext.c:142-169 | byte k of a copy from pos is the output byte last written to ring position (pos + k) mod 4096, output byte j being written to (4078 + j) mod 4096, for every token list before it |
| LzssLaws.CopyReadsUnwritten | libkern/mkext.c:112-125 | where nothing has been written yet it is 0x20 below position 4078 and what the memory held from there on |
| LzssLaws.CopyReadsLiteral | libkern/mkext.c:142-169 | a literal is what a later copy from its ring position gives, until 4096 bytes have followed |
| LzssLaws.OutputAppends | libkern/mkext.c:142-169 | no tokens give no output; a literal appends its byte and a copy its length, and what was put out stays |
| LzssLaws.FirstCopyIsBlank | libkern/mkext.c:122-124 | a first copy from below position 4078 gives blanks only |
| LzssLaws.FirstCopyIsStack | libkern/mkext.c:112-125 | one from there on gives the bytes the memory held |
| LzssLaws.LiteralBytes | libkern/mkext.c:136-142 | a flag bit of one announces one literal byte; bits are served lowest first |
| LzssLaws.CopyBytes | libkern/mkext.c:148-161 | a flag bit of zero announces the low eight bits of a 12-bit position, then its high four above the length less three |
| LzssLaws.CutItem | libkern/mkext.c:137-158 | input that ends inside an item ends the output before it |
| LzssLaws.FlagByteBegins | libkern/mkext.c:128-135 | a flag byte announces eight items |
| LzssLaws.DecompressBlanks | libkern/mkext.c:108-174 | the decoder itself, given such a first copy, fills the output with 0x20 |
| MacLock.StepKeepsInv | security/mac_base.c:270-328 | every step of every thread keeps the protocol's invariant |
| MacLock.RunKeepsInv | security/mac_base.c:270-328 | so it holds in every state of every interleaving, and the list, apart from a load under way, satisfies the table invariant |
| MacLock.BusyCountsReaders | security/mac_base.c:290-328 | the busy count is the number of threads inside a dynamic traversal, never negative |
| MacLock.ExclusiveIsAlone | security/mac_base.c:270-288 | a thread in its exclusive section holds the mutex, the count is 0 and nobody else is busy |
| MacLock.BusyFreezesTable | security/mac_base.c:232-241 | the list does not change in any step while some thread is busy, and is in order then |
| MacLock.OnlyExclusiveChanges | security/mac_base.c:232-241 | only a thread in its exclusive section changes the list |
| MacLock.SleepersHaveACause | security/mac_base.c:274-287 | no lost wake-up: while a writer sleeps the count is positive, or the thread that took it to 0 still holds the mutex on its way to wake it |
| MacTraversal.VisitedExactlyWhen | security/mac_internal.h:226-247 | in every interleaving, a policy loaded from the start to the end of a traversal is visited, once, if and only if: below the index where the static loop ended, no read of its entry through a pointer to a freed array comes up; from there on, the unlocked test read more policies than the mark. That index, the number and the mark are what the list held at three times of the traversal, in this order |
| MacTraversal.QuietVisitsAll | security/mac_internal.h:226-247 | with neither growth nor a static load under way during the traversal, every policy loaded all the while is visited exactly once |
| MacTraversal.StaticIsVisited | security/mac_internal.h:230-236 | with no growth under way, policies below the static mark are visited by every traversal, without the lock |
| MacTraversal.NearMarkIsVisited | security/mac_internal.h:226-247 | with no growth under way, so is a policy right after the static part, whatever is loaded meanwhile |
| MacTraversal.MarkPassesNothing | security/mac_base.c:724-736 | no step lowers the static mark or moves it past an occupied handle |
| MacTraversal.StaticStays | security/mac_base.c:228-231 | a policy below the static mark stays at its handle in every later state, so it may be called without the busy count |
| MacTraversal.RunLoses | security/mac_base.c:662-666 | a traversal fails to read a handle's entry in the static loop exactly when it comes to read it through a pointer to a freed array |
| MacTraversal.RunFresh | security/mac_internal.h:230-236 | without growth under way that does not happen |
| MacRaces.StaticLoadHidesPolicy | security/mac_base.c:303-305 | for every table with one dynamic policy, not right after the static part, there is a run in which a late static load makes a traversal miss it, though it is loaded all the while |
| MacRaces.GrowthHidesPolicy | security/mac_base.c:648-670 | for every full table and every static policy there is a run in which growth makes a traversal miss it, though it is loaded all the while |
| MacRaces.HiddenPolicyIsReached | security/mac_base.c:731-744 | two loads and an unload after start-up lead to a table of the first kind |
| MacRaces.FullListIsReached | security/mac_base.c:648 | eight loads during start-up lead to a full table |
| MacRaces.FullListHidesPolicy | security/mac_base.c:648-670 | whose growth can hide any of the eight |
| MacLock.StepKeepsList | security/mac_base.c:606-849 | every step keeps the table in order, or is the first half of a load on a table in order |
| MacLock.NoDeadlock | security/mac_base.c:270-328 | while some operation is under way some thread can move |
| MacEffects.LoadTakesEffect | security/mac_base.c:738-744 | when a load's last step is done, the entry is full with the policy's own name and flags, the other entries are those the load began with, and the count is one more |
| MacEffects.UnloadTakesEffect | security/mac_base.c:815-828 | after an unload that is allowed the entry is empty, the others are kept, and the count is one less |
| MacEffects.LoadStarts | security/mac_base.c:677-736 | a writer can start a load of a new name at the lowest free handle, with a slot if one is wanted; only the static mark has moved then |
| MacEffects.LoadRefused | security/mac_base.c:677-688 | it cannot load a name that is loaded |
| MacEffects.UnloadRefused | security/mac_base.c:808-811 | it cannot unload a policy that does not allow it |
| MacEffects.GrowthTakesEffect | security/mac_base.c:648-675 | a full list grows by eight empty entries, with the old array gone in between |
| MacEffects.CountSteps | security/mac_base.c:290-328 | a reader adds one and takes one away; a traversal adds one exactly when more policies are loaded than the static part holds; whoever leaves a count of 0 goes on to wake the sleepers |
| MacEffects.WriterWaits | security/mac_base.c:270-279 | a writer goes on exactly when the count is 0, and else lets go of the mutex and sleeps |
| MacEffects.WakersWake | security/mac_base.c:286-327 | nobody is asleep after the last reader or a writer has woken the sleepers |
| MacEffects.ReaderEnters | security/mac_base.c:290-296 | undisturbed, a reader ends up counted with the mutex free, and nothing else has changed |
| MacEffects.WriterEnters | security/mac_base.c:270-279 | undisturbed, a writer ends up exclusive when nobody is counted |
| MacEffects.ReadersExcludeWriters | security/mac_base.c:232-241 | in every run, where a writer changes the list no thread holds it busy or walks its dynamic part, and no other changes it |
| MacEffects.ReadersFreezeList | security/mac_base.c:232-241 | while one does, no step changes the list |
| MacEffects.StepEvent | security/mac_base.c:606-849 | each step changes the policies of the completed list exactly by the load it completes or the unload it is; a handle that comes was free, one that goes was not |
| MacEffects.RunPolicies | security/mac_base.c:606-849 | at every point of every run the policies in the list, by handle, name and flags, are the initial ones with completed loads added and unloads taken out, and their number is the initial one plus loads minus unloads |
| MacEffects.StaysUntilUnloaded | security/mac_base.c:606-849 | a loaded policy is in the list under its handle, with its own name and flags, until an unload of that handle |
| MacEffects.LogUpTo | security/mac_base.c:606-849 | every run has the log of moves the two statements above are about |
| MacErrors.SelectsHigherRank | security/mac_base.c:855-892 | the selection is the argument of higher precedence, the first one on a tie |
| MacErrors.SelectionOrder | security/mac_base.c:855-892 | in either argument order 11 is selected before 22, then 3, 2, 13, 1, any other error, and 0 |
| MacErrors.CombinedInNumerals | security/mac_internal.h:264-274 | of any list of answers the first of 11, 22, 3, 2, 13 and 1 that occurs, else the last that is not 0, else 0 |
| MacErrors.SelectIsMonoid | security/mac_base.c:855-892 | selection is associative with identity 0 |
| MacErrors.SelectCommutes | security/mac_base.c:887-891 | argument order matters exactly for two different unnamed errors |
| MacErrors.CombinedIsMaximal | security/mac_internal.h:264-274 | the combined answer has maximal precedence, is the last such answer, and is 0 exactly when all answers are |
| MacErrors.NamedErrorsIgnoreOrder | security/mac_internal.h:264-274 | unless the result is an unnamed error, permuting the answers does not change it |
| MacPolicyList.TableOrderIsIgnored | security/mac_internal.h:264-274 | so permuting the policies of a table does not change what a check yields |
| MacPolicyList.PolicyList.constructor | security/mac_base.c:333-352 | eight empty entries, seven free slots, all counters 0, and the invariant |
| MacPolicyList.PolicyList.Register | security/mac_base.c:606-776 | 1, 17, 12 or 0, and exactly when; on success the entry at the lowest free handle is full with the policy's own name and flags and the lowest free slot if it wants one, no other entry or slot changes, the count is one more, and hint, highest index and static mark are as the code sets them; on failure only the room changes; the invariant holds |
| MacPolicyList.PolicyList.Unregister | security/mac_base.c:778-849 | 16 exactly when the policy does not allow it, and then nothing changes; else exactly the entry and its slot go, the count is one less, and the invariant holds exactly for handles that may be unloaded |
| MacPolicyList.PolicyList.Grow | security/mac_base.c:648-675 | eight more entries, all empty, behind the same ones |
| MacPolicyList.PolicyList.FindName | security/mac_base.c:677-688 | the scan up to maxindex finds a loaded policy of that name exactly when there is one |
| MacPolicyList.PolicyList.FindHandle | security/mac_base.c:715-722 | the scan from the hint finds the first free handle of the whole table |
| MacPolicyList.PolicyList.Place | security/mac_base.c:690-744 | the entry at the handle has the policy's name and flags, the other entries stay, and count and hint follow |
| MacPolicyList.LoadMeans | security/mac_base.c:690-744 | a load, field by field: entry, slot, count, hint, highest index and static mark, and that nothing else changes |
| MacPolicyList.UnloadMeans | security/mac_base.c:815-828 | an unload likewise: the entry is empty, its slot is free, the count is one less, and nothing else but hint and highest index changes |
| MacPolicyList.UnloadUndoesLoad | security/mac_base.c:690-828 | an unload right after a load restores entries, count and slots |
| MacPolicyList.LoadAndUnload | security/mac_base.c:606-849 | registering and unregistering: 16 exactly when the policy does not allow it, and otherwise entries, count and slots are as before |
| MacPolicyList.LowestHandle | security/mac_base.c:715-722 | every entry below the handle given was full, and its own was empty or new |
| MacPolicyList.PolicyList.TakeOut | security/mac_base.c:815-828 | the removal's writes give the table `UnloadMeans` speaks of; the entry is empty and the count one less |
| MacPolicyList.PolicyList.EndStartup | security/mac_base.c:364-378 | the end of start-up changes nothing but the flag |
| MacPolicyList.PolicyList.Iterate | security/mac_internal.h:226-247 | visits each registered policy exactly once in handle order |
| MacPolicyList.PolicyList.Check | security/mac_internal.h:264-274 | the combined answer of all implementing policies; 0 exactly when all of them answer 0 |
| MacPolicyList.PolicyList.CheckOne | security/mac_internal.h:266-273 | one turn of that loop |
| MacPolicyList.PolicyList.Grant | security/mac_internal.h:283-295 | 0 exactly when some implementing policy answers 0, else EPERM |
| MacPolicyList.RunOk | security/mac_base.c:606-849 | in every run of registrations and permitted removals the invariant holds: entries below hint and static mark are occupied, occupied indices are at most maxindex, the count is right, names are distinct, slots are partitioned; and a table with room has a free handle at or after the hint |
| MacPolicyList.NextKeepsOk | security/mac_base.c:606-849 | one step of such a run |
| MacPolicyList.PlacedOk | security/mac_base.c:690-744 | a registration at the first free handle keeps the invariant |
| MacPolicyList.RemovedOk | security/mac_base.c:815-828 | a removal keeps it if and only if the handle is dynamic and is not a lone handle 0 |
| MacPolicyList.LoneHandleBreaks | security/mac_base.c:821-823 | the first policy to come late is at handle 0, may be unloaded, and leaves a table out of order |
| MacPolicyList.StaticUnloadBreaks | security/mac_base.c:804-811 | so does a policy of the start-up phase that may be unloaded |
| MacPolicyList.GrownOk | security/mac_base.c:648-670 | growing keeps it and makes room |
| MacPolicyList.FreeEntryExists | security/mac_base.c:715-722 | counting argument: fewer policies than entries leave a free one after any full prefix |
| MacPolicyList.FirstFreeExists | security/mac_base.c:715-722 | so a first free handle exists |
| MacPolicyList.HandlesExact | security/mac_internal.h:226-247 | the visited handles are exactly the occupied ones, ascending |
| MacPolicyList.AnswersExact | security/mac_internal.h:264-274 | the combined answers are exactly those of implementing policies |
| MacPolicyList.NothingAbove | security/mac_internal.h:238 | stopping at maxindex leaves out nothing |
| MacPolicyList.CheckZero | security/mac_internal.h:264-274 | the combination is 0 exactly when every implementing policy answers 0 |
| MacLabels.LabelLists.AddTo | security/mac_base.c:416-510 | adds every name once and a listener for each; with names that fit, no namespace is listed twice and each has a listener; the preallocated pools suffice: all listeners are used, and the elements left over are those of names listed already |
| MacLabels.LabelLists.AddOne | security/mac_base.c:460-498 | one name of that loop; a new element is needed exactly when neither list has the namespace |
| MacLabels.LabelLists.Search | security/mac_base.c:467-484 | the first element of that namespace, ignoring one leading question mark |
| MacLabels.LabelLists.RemoveFrom | security/mac_base.c:520-556 | drops the policy's first listener and its element if nobody else listens; the invariant stays |
| MacLabels.LabelLists.IndexOf | security/mac_base.c:544-545 | the first listener of that policy |
| MacLabels.ListedNamesDiffer | security/mac_base.c:459-484 | on the names themselves: no two listed names are equal, and none is another with a '?' in front unless that other starts with one |
| MacLabels.NewNameStored | security/mac_base.c:485-498 | a namespace not listed gets an element in front of its list, under the first 31 characters of its name, heard by the policy alone |
| MacLabels.ListedNameHeard | security/mac_base.c:467-498 | one that is listed, with or without the mark, gets the policy as its newest listener and nothing else changes |
| MacLabels.RunKeepsOk | security/mac_base.c:416-556 | over every run of additions and removals with names under 32 bytes no namespace is on the two lists twice and each has a listener |
| MacLabels.AddNameOk | security/mac_base.c:459-492 | adding a name keeps namespaces unique if and only if it is listed already or its cut form is not |
| MacLabels.AddNamesOk | security/mac_base.c:459-499 | so names under 32 bytes always do |
| MacLabels.LongNameListedTwice | security/mac_base.c:488-489 | a longer name, added twice, is listed twice |
| MacLabels.RemoveListenerCounts | security/mac_base.c:543-555 | one listener of the policy goes, and none of another |
| MacLabels.RemoveListenerIsComplete | security/mac_base.c:537-552 | the policy stops listening if and only if it listened at most once |
| MacLabels.UnloadIsComplete | security/mac_base.c:416-556 | a policy that came and went has no listener left on the dynamic list if and only if at most one of its names was not on the static list |
| MacLabels.UnloadUndoesLoad | security/mac_base.c:416-556 | unloading undoes loading if and only if the policy has no name, or one that was not on the static list |
| MacLabels.AddNamesCounts | security/mac_base.c:459-499 | every name brings one listener, on the static list if the name is there and else on the dynamic one |
| MacLabels.TwoNamesLeaveListener | security/mac_base.c:552 | a policy with two names on empty lists leaves a listener behind |
| MacLabels.RemoveOk | security/mac_base.c:543-555 | removal keeps namespaces unique and listened to |
| Sha256.MeasureSha256 | boot/boot_platform.c:109-212 | for every payload under 2^61 bytes the measurement is the FIPS 180-4 digest, which `Sha256Known` pins; null arguments give -1 and write nothing |
| Sha256.HashFull | boot/boot_platform.c:128-157 | the state after all full blocks is the fold over them |
| Sha256.HashTail | boot/boot_platform.c:173-202 | the one or two tail blocks complete the fold |
| Sha256.BuildTail | boot/boot_platform.c:159-171 | the tail blocks are the end of the padded message |
| Sha256.PadIsTail | boot/boot_platform.c:159-171 | the padded message of FIPS 180-4 section 5.1.1 is the full blocks followed by the tail blocks |
| Sha256.PadZeros | boot/boot_platform.c:168 | the padded length is a multiple of 64: one block past the full ones if the remainder is under 56, else two |
| Sha256.BigEndianAt | boot/boot_platform.c:167-171 | the shifted octets are those of the big-endian number, last first |
| Sha256.CompressBlock | boot/boot_platform.c:129-156 | one block is the FIPS 180-4 compression of the state, section 6.2.2 |
| Sha256.RunRounds | boot/boot_platform.c:143-153 | the 64 rounds with eight rotating variables |
| Sha256.FillFirst | boot/boot_platform.c:131-137 | the first sixteen schedule words |
| Sha256.FillRest | boot/boot_platform.c:139-141 | the other forty-eight |
| Sha256.Accumulate | boot/boot_platform.c:155-156 | the state is added word by word |
| Sha256.StoreHash | boot/boot_platform.c:204-209 | the state is written big-endian |
| Sha256.StoreLoad | boot/boot_platform.c:133-136 | the octets stored from a word are those it was loaded from |
| Sha256.ChSelects | boot/boot_platform.c:54-58 | each bit of the choice is taken from y or z as the bit of x says |
| Sha256.MajIsMajority | boot/boot_platform.c:60-64 | each bit of the majority is the one at least two operands have |
| Sha256.ChainFrame | boot/boot_platform.c:128-202 | the fold over the first blocks depends on those blocks only |
| Sha256.DigestLength | boot/boot_platform.c:204-209 | a digest has 32 octets |
| Sha256Known.AbcDigest | boot/boot_platform.c:109-212 | the digest of "abc" is the published ba7816bf 8f01cfea 414140de 5dae2223 b00361a3 96177a9c b410ff61 f20015ad |
| Sha256Known.AbcCompressed | boot/boot_platform.c:129-156 | the hash value after its one block, from 64 schedule words and 64 rounds computed one by one |
| Sha256Known.AbcTrace | boot/boot_platform.c:131-153 | the model's schedule and rounds of that block are the ones computed |
| Sha256Known.BigSigma0Bit | boot/boot_platform.c:66-70 | bit j is the exclusive-or of bits j + 2, j + 13 and j + 22 modulo 32, for every word and j |
| Sha256Known.BigSigma1Bit | boot/boot_platform.c:72-76 | of bits j + 6, j + 11 and j + 25 |
| Sha256Known.SmallSigma0Bit | boot/boot_platform.c:78-82 | of bits j + 7 and j + 18 modulo 32, and j + 3 if there is one |
| Sha256Known.SmallSigma1Bit | boot/boot_platform.c:84-88 | of bits j + 17 and j + 19 modulo 32, and j + 10 if there is one |
| Sha256Known.RotR25 | boot/boot_platform.c:48-52 | bit j of the word rotated by 25 is bit j + 25 modulo 32; nine more lemmas say it for the other amounts in use |
| Sha256Known.RoundConstants | boot/boot_platform.c:90-107 | constant i is the first 32 fractional bits of the cube root of the i-th prime, as an inequality between integers |
| Sha256Known.InitialWords | boot/boot_platform.c:120-123 | the initial hash words are those of the square roots of the first eight primes |
| Sha256Known.PaddedMessage | boot/boot_platform.c:159-171 | the padded message is the message, 0x80 and zeros, in the fewest blocks of 64 octets that leave eight at the end |
| Sha256Known.PaddedLength | boot/boot_platform.c:167-171 | those eight are the length in bits, most significant octet first |
| Sha256Known.ChainInOrder | boot/boot_platform.c:128-202 | blocks are compressed first to last, each from the value the one before left |
| Sha256Known.OctetsAt | boot/boot_platform.c:204-209 | octets 4n to 4n + 3 of the digest are those of word n, most significant first |
| BootGate.Start | security/bootloader.c:64-144 | result and trace of calls of every run; bad arguments call nothing; once measured, the buffer is wiped whatever the outcome |
| BootGate.Verdict | security/bootloader.c:84-143 | OK if and only if every stage passes; a failed load if and only if everything before it passed |
| BootGate.Reached | security/bootloader.c:99-137 | a callback is reached only after all checks before it passed, the loader exactly then |
| BootGate.AcceptedInNumerals | security/bootloader.c:64-143 | accepted if and only if the magic is 0x584E5542, the version 1, the header at least 64 bytes, signature and measurement are there, policy bits 1, 2 and 4 are set, nothing required is missing when bit 16 is, and every callback, given the calls before it, answers right |
| BootGate.HeaderInNumerals | security/bootloader.c:84-97 | exactly when an image is rejected for its header, or for a capability |
| BootGate.ArgumentsInNumerals | security/bootloader.c:73-77 | which arguments are refused; the payload has 1 to 2^30 octets |
| BootGate.AcceptedTrail | security/bootloader.c:79-143 | all calls of an accepted run in order, with the texts it writes |
| BootGate.CapabilitiesCovered | security/bootloader.c:92-97 | when asked for, the capability check passes exactly when the platform has every required capability |
| BootGate.LoadIsGuarded | security/bootloader.c:92-137 | the loader is called at most once, right after the signature, measurement and generation calls on the same payload, and only if all checks passed |
| BootGate.LoadIsReached | security/bootloader.c:134-137 | it is called whenever they all passed and it exists |
| BootGate.RecoveryOnce | security/bootloader.c:46-62 | a rejection after the argument check calls recovery exactly once, last, with the returned code, if it exists; an accepted run never does |
| BootGate.Check | security/bootloader.c:99-127 | the stages with callbacks, in order |
| BootGate.Hand | security/bootloader.c:134-143 | the loader and the end of the run |
| BootGate.MeasureAndCompare | security/bootloader.c:113-120 | passes exactly when the callback succeeded with the expected octets, and wipes the buffer either way |
| BootGate.MemCmp | security/bootloader.c:21-32 | 0 exactly for equal octets, else the sign of the first difference |
| BootGate.MemSet | security/bootloader.c:13-19 | sets the first n octets and no other |
| BootGate.MeasurePayload | boot/boot_platform.c:109-212 | the measurement code, called with a payload the gate lets through, succeeds with its digest |
| BootGate.ShaGate | security/bootloader.c:109-137 | with that measurement on payloads of the sizes the gate lets through, OK implies that the payload's SHA-256 digest is the expected one, and the loader never sees another payload |
| KextVersion.ParseVersionString | libkern/OSKextVersion.c:188-395 | the number of the version the string spells, or -1 if it spells none; `KextLaws` says which number that is |
| KextLaws.StageValue | libkern/OSKextVersion.c:188-395 | every legal number part followed by d, a, b, f or fc and a level parses to major times 10^12 plus minor times 10^8 plus revision times 10^4 plus 1000, 3000, 5000 or 7000 plus the level; it is refused exactly when the level is over 255, or 0 for f and fc |
| KextLaws.ReleaseValue | libkern/OSKextVersion.c:188-395 | without a stage it parses to the same with 9000 |
| KextLaws.StageDigitOfValue | libkern/OSKextVersion.c:388-392 | the accepted value divided by 1000, modulo 10, is 1, 3, 5 or 7 as the text has d, a, b, or f and fc, and modulo 1000 it is the level |
| KextLaws.ReleaseDigitOfValue | libkern/OSKextVersion.c:388-392 | and 9 without a stage, with level 0 |
| KextLaws.StagesAscend | libkern/OSKextVersion.c:55-62 | for the same numbers every d text parses below every a text, that below every b, that below every f and fc, and that below the release |
| KextLaws.AcceptedText | libkern/OSKextVersion.c:188-395 | whatever is accepted is such a text, followed by nothing, white space or the terminator |
| KextLaws.ValueInBaseTen | libkern/OSKextVersion.c:88-105 | numerals are read in base ten |
| KextLaws.PrintedOther | libkern/OSKextVersion.c:423-456 | what is printed for 0, for negative numbers and for numbers that hold no version |
| KextLaws.PrintedVersion | libkern/OSKextVersion.c:458-487 | what is printed for a number that holds a version: its digit groups in decimal, the revision only if it is not 0, then d, a, b or f with the level, or nothing for a release |
| KextLaws.PrintedInTwenty | libkern/OSKextVersion.c:417-419 | a buffer of twenty characters is asked for, and enough |
| KextVersion.ParseMajor | libkern/OSKextVersion.c:207-251 | the part before the first label |
| KextVersion.ParseMinor | libkern/OSKextVersion.c:253-290 | from the label for the minor number on |
| KextVersion.ParseRevision | libkern/OSKextVersion.c:292-326 | from the label for the revision on |
| KextVersion.ParseStage | libkern/OSKextVersion.c:328-341 | from the label for the release state on |
| KextVersion.ParseLevel | libkern/OSKextVersion.c:344-380 | the stage level, at most 255 |
| KextVersion.ScanNumber | libkern/OSKextVersion.c:221-241 | the maximal run of digits up to the limit, its value, and what stopped it |
| KextVersion.NamedStage | libkern/OSKextVersion.c:118-167 | a stage letter, or "fc", before a digit names its stage and is skipped |
| KextVersion.SplitStage | libkern/OSKextVersion.c:118-167 | nothing else is accepted as a stage with its level |
| KextVersion.ReadsLegal | libkern/OSKextVersion.c:188-395 | every text of the grammar, followed by white space or the end, is accepted with its meaning |
| KextVersion.LegalTextOf | libkern/OSKextVersion.c:188-395 | every accepted string is such a text, with that meaning |
| KextVersion.ParseThenPrint | libkern/OSKextVersion.c:188-490 | an accepted string's number is canonical, fits 63 bits, and printing and parsing it gives it again |
| KextVersion.PrintThenParse | libkern/OSKextVersion.c:188-490 | every canonical version, printed and parsed, comes back |
| KextVersion.PrintThenParseNumber | libkern/OSKextVersion.c:188-490 | a number survives printing and parsing if and only if it is -1 or a canonical version |
| KextVersion.ParsedOrder | libkern/OSKextVersion.c:382-395 | for accepted strings numeric order is the lexicographic order of the five fields, and equal numbers mean equal fields |
| KextVersion.PackKeepsOrder | libkern/OSKextVersion.c:388-392 | packing is injective and keeps the order |
| KextVersion.Unpack | libkern/OSKextVersion.c:432-452 | the chained divisions give fields that pack to the number, in range up to major 9999 |
| KextVersion.UnpackPack | libkern/OSKextVersion.c:432-452 | they recover the packed tuple |
| KextVersion.MeaningIsCanonical | libkern/OSKextVersion.c:328-386 | a legal text means a canonical version |
| KextVersion.GetString | libkern/OSKextVersion.c:400-490 | the buffer holds the printed form as a terminated string; a missing or short buffer is refused and left alone |
| KextVersion.PutNumbers | libkern/OSKextVersion.c:458-473 | the numbers with their periods, never past the end |
| KextVersion.PutStage | libkern/OSKextVersion.c:475-487 | the stage letter and level behind them |
| KextVersion.ValueOfDecimal | libkern/OSKextVersion.c:458-487 | decimal notation is read back as the number |
| Kcdata.ForEach | libkdd/kcdata.h:1812 | the traversal ends, has visited exactly the reference walk and stops where that ends |
| Kcdata.FindType | libkdd/kcdata.h:1815-1826 | the first visited item of the type, or the invalid iterator if and only if there is none before the end marker |
| Kcdata.Next | libkdd/kcdata.h:1604-1610 | strictly forward and never past the end |
| Kcdata.Last | libkdd/kcdata.h:1812-1813 | a traversal stops at no valid item or at the end marker |
| Kcdata.WalkIsChain | libkdd/kcdata.h:1594-1610 | visited items lie wholly inside the buffer, each starting where the one before ends |
| Kcdata.ChainIsWalk | libkdd/kcdata.h:1594-1610 | no other list of items does that up to a stopping point |
| Kcdata.WalkIsDisjoint | libkdd/kcdata.h:1594-1610 | items do not overlap and are visited in address order |
| Kcdata.WalkReadsBack | libkdd/kcdata.h:1569-1610 | a buffer written item by item is read back item by item, up to its end marker |
| Kcdata.DecodeEncode | libkdd/kcdata.h:258-300 | one item's header fields and payload are read back |
| Kcdata.Kind | libkdd/kcdata.h:1612-1620 | exactly the plain and the sixteen padded array types count as arrays, and no other type changes |
| Kcdata.FieldsFit | libkdd/kcdata.h:258-300 | whatever the bytes are, type and size fit 32 bits and flags 64 |
| Kcdata.FlagsSplit | libkdd/kcdata.h:1693-1705 | an array's flags are exactly its element type and count |
| Kcdata.Size | libkdd/kcdata.h:1644-1677 | the reported size never exceeds the stored one |
| Kcdata.PayloadInside | libkdd/kcdata.h:1644-1677 | so the payload of a valid item is inside the buffer |
| Kcdata.RecordedSizeIsExact | libkdd/kcdata.h:1635-1677 | a structure with recorded padding reports its own size, also against the legacy forms |
| Kcdata.LegacySizeIsExact | libkdd/kcdata.h:1653-1668 | so does a legacy structure |
| Kcdata.HeaderBytes | libkdd/kcdata.h:258-300 | type, size and flags are the header's bytes 0-3, 4-7 and 8-15, lowest first |
| Kcdata.StoredSizes | libkdd/kcdata.h:1649-1652 | types 0x11, 0x13 and 0x20 to 0x2f report the size they are stored with |
| Kcdata.LegacyStructures | libkdd/kcdata.h:1653-1668 | the two legacy structures report 104 and 24 bytes |
| Kcdata.OtherSizes | libkdd/kcdata.h:1669-1676 | any other type reports its stored size less the low four bits of its flags |
| Kcdata.PaddedArrayAccepted | libkdd/kcdata.h:1765-1785 | every padded array of n elements of e bytes is accepted and gives back the kind, number and size of its elements |
| Kcdata.OldArrayAccepted | libkdd/kcdata.h:1715-1764 | so is every array of the older form whose element type is on the fixed list, with the size listed |
| Kcdata.ArrayRefused | libkdd/kcdata.h:1756-1760 | one of any other element type is refused |
| Kcdata.EmptyArrays | libkdd/kcdata.h:1750-1755 | an array of no elements is accepted exactly when it has no bytes; no other type is an array |
| Kcdata.StopsWhere | libkdd/kcdata.h:1594-1610 | a traversal goes on exactly while a whole item is left whose type is not 0xF19158ED, to the address behind it |
| Kcdata.PaddingIsLeast | libkdd/kcdata.h:1622-1627 | the padding is the least that gives a multiple of 16 |
| Kcdata.ArrayFills | libkdd/kcdata.h:1743-1785 | for padded arrays count times element size plus padding is the item size; for others the elements fit |
| Kcdata.ElementsInside | libkdd/kcdata.h:1743-1785 | the elements of an accepted array are consecutive, disjoint and inside item and buffer |
| Console.Terminal.PutChar | kernel/kernel.c:127-161 | after each character screen and cursor are the window onto the transcript after that character |
| Console.Terminal.Write | kernel/kernel.c:163-172 | the same for a whole string; a null string types nothing |
| Console.Terminal.Clear | kernel/kernel.c:88-102 | the window onto an empty transcript |
| Console.Terminal.Scroll | kernel/kernel.c:104-125 | below the screen the rows move up by one and a blank one follows; else nothing changes |
| Console.Terminal.CursorInside | kernel/kernel.c:127-161 | the cursor and the cell it writes are inside the screen |
| Console.Terminal.SetCell | kernel/kernel.c:144-151 | one cell of the cursor's row, seen in the window |
| Console.Terminal.ScrollRow | kernel/kernel.c:104-161 | going to the next row is a new row of the transcript |
| Console.PrintPlain | kernel/kernel.c:88-172 | text on a cleared screen shows as its last 25 rows of 80 cells 0x1F00 plus the character, blanks after it, and the cursor behind it |
| Console.TypeInNumerals | kernel/kernel.c:127-161 | what keys 10, 13, 8 and any other do to the transcript |
| Console.ShownInNumerals | kernel/kernel.c:104-125 | the screen's cells are those of the last 25 rows |
| Console.WindowMoves | kernel/kernel.c:104-125 | a new row moves the window exactly when the screen is full |
| Console.HistoryStays | kernel/kernel.c:127-161 | rows above the cursor are never touched again |
| Console.PlainText | kernel/kernel.c:150-158 | text without control characters fills the rows in order |

## Left out

- The LZSS compression driver, which is not in libkern/mkext.c; only its tree operations are.
- MacPolicyList.PolicyList.Register: the policy's init callbacks, module data and flag updates are not modelled, and neither are the panics for missing fields; label names are added by `MacLabels.LabelLists.AddTo`.
- MacPolicyList.PolicyList.Unregister: asks for an occupied handle, as the code dereferences the entry; the branch for a policy that is not marked registered cannot be reached for a loaded one.
- MacLabels.LabelLists.AddTo: elements and listeners are values in sequences, so aliasing and freeing of list nodes are not captured.
- MacRaces.StaticLoadHidesPolicy: shows the run for tables with one dynamic policy; with more, more static loads must fall between the two reads of the test.
- MacTraversal.VisitedExactlyWhen: a read from a freed array finds nothing, though what it finds is not defined; and every access is seen by all threads at once, so weak memory order is not covered.
- BootGate.ShaGate: payload and image are values, so a callback that changes the payload's memory between measurement and load is not covered.
- Sha256.CompressBlock: stands for both copies of the compression loop in the source.
- KextVersion.ScanNumber: stands for the four digit loops of the parser; in the level loop a stage letter and any other character are refused alike.
- kcdata containers, items with descriptions, subtype descriptors and the unsafe iterator, which would only add easy members.
- verify_signature, load_kernel and read_generation in boot/boot_platform.c are placeholders; the gate takes arbitrary callbacks.
- GDT, IDT, PIC, keyboard, provider hooks and the bump allocator of kernel/kernel.c, and kernel/kernel64.c, which repeats the console.
- MAC system calls, label externalisation and internalisation, which rest on services outside these files.
- libkdd/kcdtypes.c, libkern/kernel_mach_header.c and the thin wrappers around code that is not here.
